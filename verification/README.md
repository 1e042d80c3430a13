# Verification models for the Surau backend

Dafny models of the parts of the repository whose correctness depends on what survives crashes,
retries, concurrent changes and concatenations of many small steps, with proofs about all inputs and
all runs. `dafny verify dfyconfig.toml` checks the whole project.

## What is modelled

**JWT key rotation** (`Keysets`, `Rotation`, `RotationCommands`, `RotationFields`, `RotationShapes`,
`RotationRecovery`, `ZeroLogout`). The keyset file and its rotation metadata are each replaced
atomically, the pair is not. A write may leave no trace, take effect and report an error, or succeed.
`Rotation` gives, for every disk and every command, the writes the command will make and its report.
`RotationCommands` is the program itself, updating loaded values and writing files in place, proved to
leave exactly the prefix of those writes that the write results allow. `RotationFields` says what the
writes contain, field by field, and when they are made. `RotationShapes` gives the table of what every
command does to each of the nine shapes a disk can have; `RotationRecovery` and `ZeroLogout` are about
interrupted commands and about whole runs in which commands, cuts, waits and sign-ins interleave.

**Canonical coverage** (`Bitmaps`, `Counting`, `Coverage`, `CoverageBatch`, `CoverageColumns`,
`CoverageBook`). Dense 64-bit bitmaps with masked range updates and population counts, proved equal to
sets of runes; above them the batch verifier with its one-pass multiset matching, the same gate stated
on the columns of registry rows and derived units, and the verifier of a whole book.

**Anchors** (`Decimals`, `Anchors`, `AnchorRoundTrip`, `AnchorGrammar`). The strict parser and the
printer of points and ranges; both directions of the round trip, and the grammar spelled out text by
text.

**Resumable backfills** (`OrderedScan`, `AuthorTable`, `BackfillRunner`, `QuranPages`, `PageRuns`,
`SurahScan`, `CatalogQueue`, `CatalogJob`, `CatalogFields`). The checkpointing runner over the two
author jobs, with refusal, cancellation, error, ambiguous commit and process death between any two
statements; the packed cursor of the page job, the page map that keeps it safe, and the same job under
interrupted runs; the two surah scans while surahs turn stale; the durable book queue while books are
published and withdrawn, and what each of its statements makes of a row.

**Smaller protocols** (`Backoff`, `SupervisedLoop`, `ReloadingPool`, `FrozenProfiles`,
`ParityQuotes`, `QuoteFields`, `ParityAccounting`, `Percentiles`). The supervised loop and its 64-bit
backoff, the hot-swapped pool under any interleaving, the frozen-profile contract along a chain of
merges, the bounded quote search and its accounting, nearest-rank percentiles.

`Common` holds the option type, the three outcomes of a write, and small helpers.

## What the proofs found

- Zero logout needs an obligation of the operator. When an `activate` moves the signer, its
  `--overlap` must cover a token's lifetime and the time since that `activate` read the clock. When it
  writes while the new key signs already, after a `rollback` that was cut behind its metadata write,
  its `--overlap` must cover a token's lifetime, for its metadata alone can open the gate of the
  retirement. Metadata written ahead of the signer obliges to nothing, however late it lands. That is
  enough for every run (`ZeroLogout.ZeroLogout`), and neither half can be shortened: for every shorter
  overlap there is a run that logs a session out, by a late keyset write
  (`ZeroLogout.ShortOverlapLogsOut`) or by the metadata write of an `activate` that was cut itself
  (`ZeroLogout.CutActivateLogsOut`).
- `prepare` can stop after its first write for a reason other than crash and I/O: besides a failing
  random source, a drawn secret equal to one already in the keyset, because `pkg/jwt` wants secrets
  to differ, or a clock that reads the zero time (`RotationRecovery.LateFailureExactly`).
- On every batch the loader can hand it, the coverage gate is exact: it accepts exactly when the rows
  are derived spans used once each and every required rune of every source document lies in one
  (`CoverageBatch.GateIsExact`). This leans on the primary keys of the source tables, which keep every
  document under a key of its own. Taken alone, without that schema, the gate would speak only for the
  last requiring document of each key (`CoverageBatch.AcceptanceProvesCoverage`); that is a limit of
  the verifier and no failure of the program. For a whole book, page batches, stray rows and assets
  together, the gate is exact as well, and cutting the pages into batches changes no total
  (`CoverageBook.BookGateIsExact`, `CoverageBook.TotalsIgnoreBatches`).
- `countUncoveredCanonicalRunes` calls its first total "covered"; it is the number of required runes.
- The author jobs never visit rows whose id is below 1, and `rows_done` falls short of `rows_total`
  by exactly those that are pending (`BackfillRunner.Runner.FinishAfterAnyHistory`); with a single
  author 0 the job completes at 0 of 1 (`BackfillRunner.AuthorZeroIsLeftOut`).
- What makes the page job's packed cursor safe is the page map. Verse numbers are not bounded by the
  table, but the scan stops at a verse without a page before its cursor can pass over another, so for
  every table it ends without an error only when every pending verse was filled, once and in order.
  This holds exactly for the maps that give no page to a verse above 1000 in a surah before the last
  (`QuranPages.ScanIsCompleteExactly`), and the frozen map is one of them: its longest surah has 286
  verses (`QuranPages.LongestSurah`, `QuranPages.FrozenMapFits`).
- A completed version 1 queue item of a book that is no longer published makes every synchronisation
  of the catalog queue fail, because its evidence cannot be recomputed; apart from database errors
  nothing else does (`CatalogJob.Job.SyncQueue`, `CatalogJob.WithdrawnEvidenceBlocks`). A comment in
  `syncQueue` says that failed items stay failed for an operator to inspect; the code returns them to
  pending at the start of every run, and so does the model.
- The backoff delay can exceed its maximum. That takes a base above the maximum, and then happens
  exactly when the maximum is one nanosecond and the jitter below one, or when the jittered maximum
  does not fit in 64 bits and the platform, to which Go leaves that conversion, makes it a number that
  is not positive (`Backoff.FinalDelayExactly`, `Backoff.DelayAboveMaximum`,
  `Backoff.DelayAboveLargeMaximum`). A maximum of at most 2^62 nanoseconds never overflows.
  Before jitter it is the capped exponential for every number of failures exactly when the maximum is
  no larger than the last doubling of the base that fits in 63 bits; beyond that the doubling wraps
  around (`Backoff.ExponentialExactly`).
- A file of the next profile version that reaches the base branch ahead of the selectors blocks that
  version (`FrozenProfiles.EarlyFileBlocksNextVersion`), and the error for a version that changed
  without the selectors can never be reported (`FrozenProfiles.CheckContract`).

## Model

| member | source | states |
|---|---|---|
| RotationCommands.KeysetFiles.Load | cmd/jwt-keyset/main.go:614-658 | loading refuses a missing, malformed or invalid file and otherwise yields both files as they are |
| RotationCommands.KeysetFiles.RunBootstrap | cmd/jwt-keyset/main.go:252-279 | for every outcome of its write, the disk and the report are those of the bootstrap plan |
| RotationCommands.KeysetFiles.RunPrepare | cmd/jwt-keyset/main.go:281-364 | prepare, started or resumed, leaves the prefix of its plan that its two write outcomes allow, and reports accordingly |
| RotationCommands.KeysetFiles.RunActivate | cmd/jwt-keyset/main.go:366-421 | the same for activate: metadata first, then the signer; metadata that changed records this moment and gate, no rollback or retirement, and keeps kids and preparation; a clock behind the preparation writes nothing |
| RotationCommands.KeysetFiles.RunRollback | cmd/jwt-keyset/main.go:423-474 | the same for rollback: a rollback recorded before the gate shows this moment beside the activation times it had |
| RotationCommands.KeysetFiles.RunRetire | cmd/jwt-keyset/main.go:476-530 | the same for retire: keyset first, then the metadata; a retirement recorded from the gate on shows this moment and keeps the rest, and afterwards the old key and the legacy fallback are gone |
| RotationCommands.KeysetFiles.ExportWorker | cmd/jwt-keyset/main.go:549-566 | publishes the keyset exactly when the pair of files is a completed rotation |
| RotationFields.KeysetRefusedExactly | cmd/jwt-keyset/main.go:703-728 | the full list of reasons to refuse a keyset |
| RotationFields.MetadataRefusedExactly | cmd/jwt-keyset/main.go:730-836 | the full list of reasons to refuse rotation metadata |
| RotationFields.VerifiesExactly | pkg/jwt/jwt.go:243-284 | in an accepted keyset a secret verifies under its own kid only, and without a kid under the legacy one only |
| RotationFields.StateAcceptedExactly | cmd/jwt-keyset/main.go:838-957 | the pair is accepted exactly when the keyset is the one the recorded phase calls for |
| RotationFields.BootstrapWritesExactly | cmd/jwt-keyset/main.go:252-279 | on every disk, the one keyset bootstrap writes and exactly when |
| RotationFields.PrepareStartsExactly | cmd/jwt-keyset/main.go:281-313 | on every disk, the record and the keyset a starting prepare writes, and exactly when each is written |
| RotationFields.PrepareResumesExactly | cmd/jwt-keyset/main.go:315-364 | the same for a prepare that was interrupted: the record stays, the missing key is added |
| RotationFields.ActivateWritesExactly | cmd/jwt-keyset/main.go:366-421 | on every disk, all fields of both files an activate writes, and exactly when: not behind the preparation, and not when the next key signs an active rotation |
| RotationFields.RollbackWritesExactly | cmd/jwt-keyset/main.go:423-474 | on every disk, all fields a rollback writes, and exactly when: before the gate, or to finish one that is recorded |
| RotationFields.RetireWritesExactly | cmd/jwt-keyset/main.go:476-530 | on every disk, all fields a retire writes, and exactly when: from the gate on, with the next key signing |
| RotationShapes.TableIsRight | cmd/jwt-keyset/main.go:252-530 | from each of the nine shapes, each command goes write by write through the shapes of one table and succeeds exactly when the table says so |
| RotationShapes.ShapeIsUnique | cmd/jwt-keyset/main.go:838-957 | no disk has two of the shapes |
| RotationShapes.LoadAcceptsStableShapes | cmd/jwt-keyset/main.go:601-612 | the state check accepts exactly the five completed shapes |
| RotationRecovery.LateFailureExactly | cmd/jwt-keyset/main.go:281-530 | on any disk at all, a command whose writes succeed fails after a write exactly when it is a starting prepare without a usable draw or at the zero time |
| RotationRecovery.RerunOfDoneWritesNothing | cmd/jwt-keyset/main.go:281-530 | a command whose work is done writes nothing and succeeds |
| RotationRecovery.RerunCompletes | cmd/jwt-keyset/main.go:281-530 | however many writes of a command landed, the same command later reaches its completed shape; only a rollback that wrote nothing has its gate, only a prepare needs a draw |
| RotationRecovery.RetirementReached | cmd/jwt-keyset/main.go:366-530 | from every shape at most three commands, in order of time, end in the retired shape |
| ZeroLogout.ReachableDisks | cmd/jwt-keyset/main.go:252-530 | every disk of every run has one of the nine shapes, one or two keys, its signer among them, and a legacy key that is absent or held |
| ZeroLogout.ReachableLoads | cmd/jwt-keyset/main.go:601-612 | on reachable disks the loader accepts exactly the completed shapes |
| ZeroLogout.SecretsNeverChange | cmd/jwt-keyset/main.go:339-530 | no step of any run changes the secret of a kid that stays |
| ZeroLogout.ZeroLogout | cmd/jwt-keyset/main.go:366-530 | after every run whose activates are punctual, cut or not, every unexpired token signed under the signer on disk verifies; punctual means that the overlap covers lifetime and lag when the keyset write moves the signer, and the lifetime at any write made while the new key signs already |
| ZeroLogout.ShortOverlapLogsOut | cmd/jwt-keyset/main.go:366-421 | for every overlap shorter than lifetime plus lag some run ends with an unexpired token rejected |
| ZeroLogout.CutActivateLogsOut | cmd/jwt-keyset/main.go:366-530 | for every overlap shorter than the lifetime some run, punctual but for the metadata write of an activate cut right after it, ends with an unexpired token rejected |
| Bitmaps.SetBitmapBit | internal/backfill/citable_catalog_verify.go:893-895 | adds the one rune to the set a bitmap stands for |
| Bitmaps.RangeMaskBits | internal/backfill/citable_catalog_verify.go:914-941 | the mask of a word has exactly the bits of the range that lie in that word |
| Bitmaps.MutateBitmapRange | internal/backfill/citable_catalog_verify.go:914-941 | sets or clears exactly the bits of [max(start,0), min(end,limit)), for any alignment, and no other |
| Bitmaps.SetRange | internal/backfill/citable_catalog_verify.go:906-908 | the set becomes its union with that interval |
| Bitmaps.ClearRange | internal/backfill/citable_catalog_verify.go:910-912 | the set loses that interval |
| Counting.BitmapCount | internal/backfill/citable_catalog_verify.go:897-904 | the sum of word population counts is the size of the set |
| Counting.CountDocument | internal/backfill/citable_catalog_verify.go:867-878 | one document contributes the sizes of required and of required minus actual |
| Coverage.MarkVisible | internal/backfill/citable_catalog_verify.go:830-834 | marks exactly the positions that are neither space nor underscore |
| Coverage.ClearAnchors | internal/backfill/citable_catalog_verify.go:836-841 | takes out exactly the ranges of anchored blocks |
| Coverage.ClearMarkers | internal/backfill/citable_catalog_verify.go:843-860 | takes out, for each footnote, exactly the last marker that ends at or before its source start |
| Coverage.MarkRequired | internal/backfill/citable_catalog_verify.go:818-865 | the bitmap stands for the set of required runes |
| Coverage.RequiredRunesIgnoreOrder | internal/backfill/citable_catalog_verify.go:818-865 | that set does not depend on the order of blocks or footnotes |
| CoverageBatch.RequireDocuments | internal/backfill/citable_catalog_verify.go:773-816 | the map holds the required runes of the last requiring document for each key |
| CoverageBatch.MarkSpan | internal/backfill/citable_catalog_verify.go:880-887 | a matched span covers exactly its runes, in its document only |
| CoverageBatch.MatchRows | internal/backfill/citable_catalog_verify.go:660-731 | one pass over the rows counts the unexpected ones and covers the runes of the matched ones, each derived span used at most once |
| CoverageBatch.CountUncovered | internal/backfill/citable_catalog_verify.go:867-878 | the totals are the required runes and the required runes outside every matched row, summed over documents |
| CoverageBatch.VerifyBatch | internal/backfill/citable_catalog_verify.go:634-731 | the whole batch returns those totals and the number of unexpected rows |
| CoverageBatch.UnexpectedIsZero | internal/backfill/citable_catalog_verify.go:660-731 | no row is unexpected exactly when all are complete and form a sub-multiset of the derived spans |
| CoverageBatch.UncoveredIsZero | internal/backfill/citable_catalog_verify.go:867-878 | no rune is uncovered exactly when every required rune of every kept document lies in a matched row |
| CoverageBatch.AcceptsExactly | internal/backfill/citable_catalog_verify.go:634-731 | both gates pass exactly when the rows are exact and every required rune of every kept document lies in one of them |
| CoverageBatch.AcceptanceProvesCoverage | internal/backfill/citable_catalog_verify.go:634-731 | acceptance implies coverage of every document, whatever the rows, exactly when no rune is required only by a document replaced under its key |
| CoverageBatch.DistinctKeysLoseNothing | internal/backfill/citable_catalog_verify.go:760-816 | documents with different keys are all spoken for |
| CoverageBatch.LoadedKeysDiffer | internal/repo/persistent/citable_unit_postgres.go:70-178 | the primary keys of the source tables keep every page and every asset under a document key of its own |
| CoverageBatch.GateIsExact | internal/backfill/citable_catalog_verify.go:634-731 | on a batch of pages or of assets as loaded, acceptance is equivalent to exact rows and coverage of every required rune of every source document |
| CoverageBatch.SharedKeyLosesRune | internal/backfill/citable_catalog_verify.go:773-816 | the map taken alone, on two documents under one key, which no loaded source has, would lose a required rune |
| CoverageColumns.UnexpectedOnColumns | internal/backfill/citable_catalog_verify.go:660-771 | no row is unexpected exactly when each agrees in every column with a derived unit of its own, but for the heading of a page row |
| CoverageColumns.PageHeadingIsIgnored | internal/backfill/citable_catalog_verify.go:761-764 | the heading a page row stands under changes no count |
| CoverageColumns.GateOnColumns | internal/backfill/citable_catalog_verify.go:634-816 | a loaded batch is accepted exactly when the rows agree with units of their own and every rune to be covered lies in a row with the role, page, language and hash of its page, or also the heading of its asset |
| CoverageColumns.PlainRunes | internal/backfill/citable_catalog_verify.go:830-834 | in plain text all runes but white space and underscores must be covered |
| CoverageColumns.OneMoreBlock | internal/backfill/citable_catalog_verify.go:836-841 | an anchored block takes out its range, any other block nothing |
| CoverageColumns.OneMoreFootnote | internal/backfill/citable_catalog_verify.go:843-860 | a footnote takes out the last occurrence of its marker that ends before it |
| CoverageBook.VerifyBook | internal/backfill/citable_catalog_verify.go:569-620 | a book fails exactly when a batch cannot be derived or the page of an asset row is NULL; otherwise its counts are those of its page batches, its stray rows and its assets together |
| CoverageBook.EveryRowIsJudgedOnce | internal/backfill/citable_catalog_verify.go:569-620 | every active row is in one page batch, stray, or in the asset batch, and counted once |
| CoverageBook.BookGateIsExact | internal/backfill/citable_catalog_verify.go:569-620 | no rune of the book is uncovered and no row unexpected exactly when every active row is exact in its batch and every required rune of every page and asset lies in an active row |
| CoverageBook.TotalsIgnoreBatches | internal/backfill/citable_catalog_verify.go:577-592 | the reported documents and required runes are those of all pages and assets, wherever the batches are cut |
| AnchorRoundTrip.ParseDecimalExactly | internal/anchor/parse.go:247-272 | a decimal is accepted exactly when it is the printed form of a number up to the PostgreSQL integer maximum, zero only where it is allowed |
| AnchorRoundTrip.ShowThenParse | internal/anchor/parse.go:20-53 | every constructible point or range is read back from its printed form |
| AnchorRoundTrip.ParseThenShow | internal/anchor/anchor.go:164-245 | an accepted text is the printed form of its value |
| AnchorRoundTrip.AcceptedExactly | internal/anchor/parse.go:20-53 | the accepted texts are exactly the printed forms |
| AnchorRoundTrip.ShowIsInjective | internal/anchor/anchor.go:164-245 | different values never print alike |
| AnchorRoundTrip.LengthNeverRefuses | internal/anchor/anchor.go:201-217 | a printed value has at most 86 bytes, so a range of valid points is refused for its scope only |
| AnchorRoundTrip.ParsePointExactly | internal/anchor/parse.go:55-67 | ParsePoint accepts exactly the points among the values |
| AnchorRoundTrip.LegacyAyahKeyExactly | internal/anchor/parse.go:69-82 | a legacy key is accepted exactly when it is an ayah anchor without its corpus |
| AnchorGrammar.SurahText | internal/anchor/parse.go:111-144 | "quran/S" is surah S, for S from 1 to 2147483647, and nothing otherwise |
| AnchorGrammar.AyahAnchor | internal/anchor/parse.go:111-178 | "quran/S:A" is ayah A of surah S, within the same bounds |
| AnchorGrammar.QuranUnitAnchor | internal/anchor/parse.go:111-178 | "quran/S:A/u/N" is unit N of that ayah |
| AnchorGrammar.WorkAnchor | internal/anchor/parse.go:180-245 | "kitab/B" is book B |
| AnchorGrammar.HeadingAnchor | internal/anchor/parse.go:180-245 | "kitab/B/h/H" is heading H of book B, H from 1 |
| AnchorGrammar.KitabUnitAnchor | internal/anchor/parse.go:180-245 | "kitab/B/h/H/u/N" is unit N under heading H of book B, H from 0 |
| AnchorGrammar.LegacyKey | internal/anchor/parse.go:69-82 | "S:A" as a legacy key is ayah A of surah S |
| AnchorGrammar.RangeExactly | internal/anchor/parse.go:20-53 | a range is two points joined by two dots that are ayahs of one surah in order or points of one book |
| AnchorGrammar.NothingElseIsPoint | internal/anchor/parse.go:55-67 | every text read as a point is one of the six forms with its numbers in their places |
| OrderedScan.ScanStep | internal/backfill/jobs.go:77-134 | one chunk of a cursor scan takes the first waiting keys and leaves exactly the rest waiting, all behind the new cursor |
| AuthorTable.SelectIsAbove | internal/backfill/normalization_versions_job.go:62-69 | the chunk query returns the pending keys above the cursor, in order |
| AuthorTable.StampRemoves | internal/backfill/jobs.go:137-174 | stamping rows takes exactly them out of either job's pending set |
| AuthorTable.UpdateIsStamp | internal/backfill/jobs.go:184-217 | the batched UPDATE stamps and counts every row of its chunk, so the write conflict never arises |
| BackfillRunner.LoadCheckpoint | internal/backfill/backfill.go:279-355 | whatever statement fails, the stored checkpoint is the old one, the seed or the one the run begins with; a completed job without restart is refused with nothing changed |
| BackfillRunner.StoreCheckpoint | internal/backfill/backfill.go:226-238 | a save stores status, cursor and count under the total as loaded, or nothing |
| BackfillRunner.Runner.VerifyRows | internal/backfill/normalization_versions_job.go:101-139 | drift is reported exactly when a row of the chunk drifts; otherwise each row gets the text of its own name |
| BackfillRunner.Runner.ProcessChunk | internal/backfill/normalization_versions_job.go:48-99 | a chunk is stamped whole or not at all, never partly; a drifting row writes nothing; done means nothing waits |
| BackfillRunner.Runner.LoadOrInit | internal/backfill/backfill.go:279-355 | a completed job is refused unchanged without restart; otherwise a run resumes from the stored cursor, or from 0, with a total of what is done plus what is pending |
| BackfillRunner.Runner.RunLoop | internal/backfill/backfill.go:123-153 | whatever is cancelled, lost or killed, the stamped rows followed by the waiting ones stay the rows that waited at first, and the stored checkpoint lacks at most one chunk |
| BackfillRunner.Runner.Run | internal/backfill/backfill.go:93-121 | one invocation keeps that invariant, and what it reports is what the checkpoint says |
| BackfillRunner.Runner.FinishAfterAnyHistory | internal/backfill/backfill.go:93-208 | after any history of interrupted runs, an undisturbed run stamps every waiting row exactly once in order, unless a row drifts: each then has the text derived from its name at version 1 and no other row changed; the count is short of the total by the pending rows with an id below 1 |
| BackfillRunner.AuthorZeroIsLeftOut | internal/backfill/jobs.go:77-86 | with one author of id 0 either job completes at 0 of 1 and changes nothing |
| BackfillRunner.TextIsNeverRewritten | internal/backfill/normalization_versions_job.go:101-139 | no run of either job changes a search text that was there before |
| QuranPages.CursorFollowsOrderExactly | internal/backfill/quran_page_navigation_job.go:87-97 | packed cursors follow (surah, ayah) order for verses 1 to n exactly when n is at most 1000 |
| QuranPages.FrozenMapFits | internal/quranutil/qpc_page.go:8-21 | the frozen map has pages for exactly the verses of its 114 surahs, and its numbers fit |
| QuranPages.PageOfExactly | internal/quranutil/qpc_page.go:8-21 | the page of a verse is the positive entry at its own surah and number, and none is given where that is missing or zero |
| QuranPages.ScanExactly | internal/backfill/quran_page_navigation_job.go:50-141 | on any table, with a map whose numbers fit, a scan visits every pending verse once and in order when all have a page, and otherwise stops outside the profile after the full chunks before the first that has none |
| QuranPages.ScanIsCompleteExactly | internal/backfill/quran_page_navigation_job.go:50-141 | no scan of any table ends without an error and leaves a verse out exactly when the map gives no page to a verse above 1000 that another surah can follow |
| QuranPages.LongSurahWouldLoseVerse | internal/backfill/quran_page_navigation_job.go:87-97 | a map that did would let the scan pass over the first verse of the next surah |
| QuranPages.AyahTable.LoadChunk | internal/backfill/quran_page_navigation_job.go:88-141 | the row loop fails exactly on a verse outside the page map, and otherwise yields for each verse the entry of the map at its surah and number, and the last cursor |
| QuranPages.AyahTable.ProcessChunk | internal/backfill/quran_page_navigation_job.go:50-85 | a chunk gives each of its verses the positive entry of the map at its own surah and number and touches no other row, or changes nothing; the write conflict never arises |
| QuranPages.AyahTable.Scan | internal/backfill/quran_page_navigation_job.go:50-165 | an undisturbed scan fills exactly what it visits; with a map whose numbers fit it fails exactly when some pending verse has no page, and otherwise every row without a page has got the entry of the map at its surah and number |
| PageRuns.PageJob.ProcessChunk | internal/backfill/quran_page_navigation_job.go:50-85 | with any cursor behind the pending verses, a chunk fills the next ones whole or changes nothing, and fails exactly when one of them has no page |
| PageRuns.PageJob.Run | internal/backfill/backfill.go:93-153 | however a run of the page job is interrupted, the verses filled stay an initial part of those without a page at first, and no checkpoint passes over one |
| PageRuns.PageJob.FinishAfterAnyHistory | internal/backfill/backfill.go:93-208 | after any history of interrupted runs, with any chunk sizes, an undisturbed run gives every verse without a page the entry of the map at its surah and number, and counts the total, exactly when the map has one for each; otherwise it fails less than a chunk before the first without one |
| SurahScan.NextIsFirst | internal/backfill/quran_citable_units_job.go:92-103 | nothing is selected exactly when nothing is wanted, and otherwise the first wanted surah behind the cursor |
| SurahScan.SurahTable.ProcessNextSurah | internal/backfill/quran_citable_units_job.go:85-117 | a step reconciles the first surah that waits behind the cursor, or when wrapping and none does, the first of all; a wrapping step reports done exactly when nothing is stale, the other exactly when no derived surah lies behind the cursor |
| SurahScan.SurahTable.DrainStale | internal/backfill/quran_citable_units_job.go:33-42 | under finitely many invalidations the wrapping job ends with nothing stale, in at most as many steps as stale surahs and invalidations |
| SurahScan.SurahTable.Rederive | internal/backfill/quran_citable_units_job.go:59-68 | while surahs are derived elsewhere and turn stale at any time, the rederivation job visits surahs in strictly growing order and misses none that was derived when it began |
| CatalogQueue.RankBooks | internal/backfill/citable_units_catalog_job.go:257-268 | every candidate gets one place, in the order of the ranking |
| CatalogFields.RankOnFields | internal/backfill/citable_units_catalog_job.go:257-268 | categories 3 and 7 first, then more readers, then later reading, then the smaller id |
| CatalogJob.Job.UpgradeEvidence | internal/backfill/citable_units_catalog_job.go:443-566 | version 1 evidence stays, with the new registry digest, exactly where source and legacy registry digests are those of the live book, and is dropped otherwise; it fails exactly when such a book is not published |
| CatalogJob.Job.Enqueue | internal/backfill/citable_units_catalog_job.go:256-330 | exactly the candidates get pending items without evidence, with the attempts they had, under the numbers right behind all in use, in rank order; numbers stay positive and distinct, so the constraints never refuse |
| CatalogJob.Job.SyncQueue | internal/backfill/citable_units_catalog_job.go:202-331 | afterwards no item of a withdrawn book is open, none is left running, and every remaining book of the wave is pending or failed; the queue is exactly what the statements in their order make of it |
| CatalogJob.WithdrawnEvidenceBlocks | internal/backfill/citable_units_catalog_job.go:482-529 | with one completed version 1 item of an unpublished book the synchronisation fails |
| CatalogJob.Job.Claim | internal/backfill/citable_units_catalog_job.go:568-626 | claims the lowest pending number behind the cursor whose book is published; withdrawn items are cancelled, nothing else changes |
| CatalogJob.Job.Reconcile | internal/usecase/unitregistry/catalog.go:27-129 | success completes the claimed item with the live digests and makes its book current; a rederivation that changed the registry is refused whole |
| CatalogJob.Job.ProcessChunk | internal/backfill/citable_units_catalog_job.go:139-199 | done only when nothing is claimable on either side of the cursor and all that remains has failed; otherwise the item processed is the lowest claimable one after the cursor, or of all when none is left after it |
| CatalogJob.Job.Run | internal/backfill/citable_units_catalog_job.go:73-199 | a run that ends for want of work leaves no book of its wave for CountRemaining, whatever changed meanwhile |
| CatalogJob.WithdrawnIsCancelled | internal/backfill/citable_units_catalog_job.go:215-235 | an open item of a withdrawn book is cancelled under its number |
| CatalogJob.RunningReturnsToPending | internal/backfill/citable_units_catalog_job.go:237-254 | what a dead process left running is pending again, with its number and attempts |
| CatalogJob.FailedWaitsForNextRun | internal/backfill/citable_units_catalog_job.go:237-254 | a failed item is pending again when a run begins, and stays failed while the run goes on |
| CatalogJob.CompletedIsProved | internal/backfill/citable_units_catalog_job.go:339-430 | after the first pass of a run no completed item of the wave has evidence that the live book contradicts |
| CatalogJob.CurrentWorkIsKept | internal/backfill/citable_units_catalog_job.go:202-331 | a completed, current item with live digests is untouched by every statement of a synchronisation |
| CatalogFields.SettledCompleted | internal/backfill/citable_units_catalog_job.go:202-430 | a completed item stays completed through the statements before the enqueueing exactly when neither old nor live digests contradict it |
| CatalogFields.SettledOpen | internal/backfill/citable_units_catalog_job.go:215-254 | every other item only changes its status, by book and by whether the run has just begun |
| CatalogFields.FirstPassCandidates | internal/backfill/citable_units_catalog_job.go:269-306 | the first pass enqueues wave books without an item, cancelled, or completed before the book changed |
| CatalogFields.RederivationCandidates | internal/backfill/citable_units_catalog_job.go:269-306 | the rederivation enqueues books without an item, cancelled, or whose evidence is not that of the first pass |
| CatalogFields.RemainingOnFields | internal/backfill/citable_units_catalog_job.go:83-137 | what CountRemaining leaves out in either pass |
| Backoff.ExponentialExactly | internal/app/loop.go:150-166 | in 64-bit arithmetic the delay before jitter is min(base * 2^(n-1), max) for all n exactly when max is at most the last doubling of base that fits |
| Backoff.SafeMaximum | internal/app/loop.go:150-166 | a maximum of at most 2^62 is always safe |
| Backoff.FinalDelayExactly | internal/app/loop.go:168-176 | the delay is positive, and above the maximum exactly when a larger base meets a maximum of 1 and a random draw below one half, or a jittered maximum that does not fit in 64 bits and is converted to a number that is not positive |
| Backoff.DelayAboveMaximum | internal/app/loop.go:168-176 | base 2, maximum 1 and draw 0 give a delay of 2 |
| Backoff.DelayAboveLargeMaximum | internal/app/loop.go:168-176 | base 2^63-1, maximum 8 * 10^18 and draw 0.9, converted to the least integer, give a delay of the base |
| Backoff.DelayInRange | internal/app/loop.go:150-176 | with base at most max at most 2^62 it is in (0, max] and within 20% of the exponential |
| Backoff.BackoffDelay | internal/app/loop.go:150-176 | the doubling loop computes that delay, for every draw and every conversion of what does not fit, with the defaults for values that are not positive |
| SupervisedLoop.Loop.Await | internal/app/loop.go:65-78 | a wait ends in a stop only once cancelled, and in a pass only when every delay begun is over; it sleeps until the timer only when no wake of a healthy loop was pending |
| SupervisedLoop.Loop.Succeed | internal/app/loop.go:86-92 | after a success the failures are forgotten and the timer is set to the interval |
| SupervisedLoop.Loop.BackOff | internal/app/loop.go:99-108 | after a failure the timer is set to the larger of backoff and hint |
| SupervisedLoop.Loop.Run | internal/app/loop.go:54-110 | in every history no wake is lost, no pass starts before the delay of an earlier failure, none that no wake asked for starts before the initial delay or the interval after a success, failures are counted from the last success, and every wait ends in a pass unless cancelled |
| ReloadingPool.Pools.Begin | collab-server/src/persistence.ts:58-75 | a query joins the reload in flight or begins the only one |
| ReloadingPool.Pools.PreflightDone | collab-server/src/persistence.ts:89-104 | a passing candidate becomes active and the old pool is ended; a failing one is ended |
| ReloadingPool.Pools.Interleave | collab-server/src/persistence.ts:44-106 | under any interleaving one reload at most is in flight, every query went to a living pool that is the first or passed its preflight, and at rest every other pool has been ended |
| FrozenProfiles.CheckContract | scripts/check_normalization_contract.py:59-132 | no violation is reported exactly for acceptable changes |
| FrozenProfiles.AcceptedOnFiles | scripts/check_normalization_contract.py:59-132 | which changes are acceptable, file by file |
| FrozenProfiles.FrozenForever | scripts/check_normalization_contract.py:59-132 | along any chain of accepted changes the version starts at 1 and rises by at most one, both selectors pick it, and artifacts once introduced never change |
| FrozenProfiles.EarlyFileBlocksNextVersion | scripts/check_normalization_contract.py:123-127 | a next-version file already on the base makes every change of the selectors unacceptable |
| ParityQuotes.QuotesTriedAreFew | internal/backfill/citable_catalog_parity.go:404-420 | at most 56 quotes are tried, each of 4 to 256 runes within the first 4000 runes of unit and page |
| ParityQuotes.QuoteIsProof | internal/backfill/citable_catalog_parity.go:394-518 | a returned quote stands in unit and page, the locator finds it there, and the page is the one ranked first |
| QuoteFields.TriedExactly | internal/backfill/citable_catalog_parity.go:399-468 | the quotes tried are, for each halved width, the first eight good trimmed windows half a width apart over the first 4000 runes |
| QuoteFields.TakenExactly | internal/backfill/citable_catalog_parity.go:421-518 | a quote is taken exactly when the locator finds it and the page ranked first is the candidate's, or another that shows it and where it is found too |
| QuoteFields.FailsExactly | internal/backfill/citable_catalog_parity.go:421-518 | a quote stops the search with an error exactly when a request it needs fails |
| ParityQuotes.CandidateQuote | internal/backfill/citable_catalog_parity.go:394-472 | the search returns the first quote that settles it, within 7 windows and 112 locator calls |
| ParityAccounting.VerifyParity | internal/backfill/citable_catalog_parity.go:171-256 | verified, mismatched and unresolved add up to the target, each counter is the number of samples with its verdict |
| ParityAccounting.CleanExactly | internal/backfill/citable_catalog_parity.go:171-256 | all targets are verified exactly when each has a sample and each sample passes |
| ParityAccounting.VerdictsOnFields | internal/backfill/citable_catalog_parity.go:171-256 | each of the five verdicts on the fields of what the two requests showed |
| ParityAccounting.SampleOnFields | internal/backfill/citable_catalog_parity.go:341-384 | a public book's sample carries the quote found with its place, unit and anchor; any other book's carries none |
| Percentiles.CountsPlaces | cmd/quran-page-bench/main.go:797-801 | the count behind the percentile is the number of places that hold at most the value |
| Percentiles.NearestRank | cmd/quran-page-bench/main.go:797-801 | the percentile is the least value, and one of the sample, that at least the given percentage does not exceed |
| Percentiles.Summarize | cmd/quran-page-bench/main.go:782-795 | the summary's percentiles and maximum are those of the unsorted sample |
| Percentiles.SearchP95Index | internal/backfill/citable_catalog_verify.go:1005-1017 | the other index arithmetic picks the same element |

## Left out

- Files: permissions, temporary files, the advisory lock file, the 64 KiB limit on reading a file
  back (a bootstrap with an enormous secret could write a keyset it cannot read), flag parsing, and
  everything printed. Commands are serialised by the lock; `--out` of `export-worker` is a third,
  unrelated file.
- ZeroLogout.ZeroLogout: tokens are signed and checked against the keyset on disk; the time a
  running server takes to reload its snapshot is not modelled, because it is set by the operator's
  signal and not by this code.
- Cryptography, base64, random generation, SHA-256 and JSON time formats: secrets and digests are
  opaque values, and a generated secret is any text of 43 characters.
- Strings are sequences of characters or code points; invalid UTF-8 in source texts is not
  modelled. Error values are reduced to their class.
- Units, blocks and footnotes derived from a book are inputs of the coverage model, with footnote
  starts inside the text; span and document keys are tuples instead of joined strings.
- Statements run one at a time: row locks, `SKIP LOCKED` and writers in the middle of a statement
  are not modelled.
- BackfillRunner.Runner.Run: rows that other writers stamp or add during the runs are not modelled;
  added rows below the cursor are not visited before a restart, by design.
- CoverageBook.VerifyBook: the deriver is a parameter that answers a batch the same way each time; the
  loop over the books and database errors are left out.
- CatalogJob.Job.Run: the test-only list of book ids and the check of the category names are left
  out; a step changes books and evidence at will between chunks but not within one.
- Backoff.FinalDelayExactly: jitter is computed over the reals, so the rounding of 64-bit floating
  point, which moves the edges of its condition slightly, is not modelled; percentiles are over the
  reals, without NaN.
- SupervisedLoop.Loop.Run: a pass begins when it drops pending wakes; panics are failures like any
  other, metrics and logging are left out.
- ReloadingPool.Pools.Interleave: a concurrent `end` of the whole pool and exceptions from the pool
  factory are left out.
- FrozenProfiles.CheckContract: the regular expressions that read the selectors are parameters, and
  git is a map from path to contents; concurrent branches from one base are not modelled.
- ParityAccounting.VerifyParity: answers of the two requests about a sample are inputs, and
  diagnostics are left out. The repository's answers do not change during a search.
- Percentiles.Summarize: the library's sort is a function on sequences, so sorting in place is not
  modelled.
- ParseLegacyTOC, the rederivation jobs' progress totals, the remaining backfill jobs, metrics,
  HTTP, editor and generation code: plumbing, or easy members only.
