# Verified model of Costroid's accounting

A Dafny model of the parts of Costroid whose answers must be exact, and proofs of what
those parts promise. Each module stands for one component and follows its branches,
constants and error cases. `dafny verify dfyconfig.toml` checks the whole project.

## What is modelled

**Machinery that stands in for something simple.** Each is written as the program
writes it (classes whose methods change fields, loops over arrays and maps) and proved
against the simple thing as ghost state.

- `Limiter`: two rings per installation against a log of every write, and every run of it
  against a judge that knows nothing but the history of requests and releases.
- `Fanout` and `IngestRows`: chunks run by a scheduler that may pick any running worker
  at every step, against the sequential loop; the rows parser on top of it.
- `Egress`: recorders and flushes as atomic steps, any number at once, against the count
  of every call recorded.
- `Deliveries`: a pruned queue and a set against the log of every accepted claim.
- `RowsDigest`: a reader that is handed a file in arbitrary pieces, against splitting the
  whole file at once, and against the digest the run's writer states.

**Transformations and codecs.**

- `UnifiedDiff`, `PatchFormat`, `Splice`, `WorkflowBlocks` and `ExistingPatch`: the patch
  printer of `costroid init`, the blocks it adds to, a strict reader of the unified format
  ("Diff -u Output Format" of the POSIX.1-2017 diff utility), and the file the patch should make.
- `Wire` and `Doubles`: the protobuf walker against the wire grammar and an encoder, and
  the bit-level reading of doubles against section 3.4 of IEEE 754-2019.
- `OtlpCounts`: one request's raw figures taken apart into disjoint classes, in int64.

**The money pipeline.** `Decimals` and `DecimalText` give decimals an exact rational
value, a unique normal form and a faithful printer. On them stand the row writer and the
row check (`FocusRow`), the comment's reader (`RowArithmetic`, `CommentRows`, `FigureRows`,
`RequestRuns`, `CommentTally`), the cap and
its overshoot (`Overshoot`, `OvershootRows`), the policy's own reader (`PolicyUsage`), the pull request's
lifetime added up two ways (`ReportSums`, `History`), the reconciliation of tokens and
dollars (`TokenChecks`, `Pricing`, `Dollars`) and the gateway's count (`GatewayCount`).
`Sums` and `Sorting` hold what they share: sums over sets and maps that do not depend on
the order their elements are taken in, and Go's stable sort by byte-wise string order.

## How to read it

- Amounts are compared as exact rationals: `Value` is a decimal's value as a `real`.
- A Go map read in iteration order is a loop that takes any remaining key next, and the
  contract does not mention the order.
- Go strings and byte slices are sequences of characters or of numbers below 256. Times
  are integer nanoseconds; the clock never runs back and never shows the zero instant.
- SHA-256, the catalog's lookup, trimming a line, reading one ingest row and a line's row
  id are function parameters: what is proved holds for every such function.
- The two rows readers start from one decoded row, `RowText`. It says how the one column
  that only the policy's reader decodes came out, because the two decoders part there.
- A goroutine's call, a locked region and a sink write are one atomic step each.

## Where the code falls short of what one might expect

Each of these is proved: when it happens, and an input for which it does.

- The patch for an existing workflow does not apply when the claude step's block ends more
  than three lines behind the end of the jobs block (`ExistingPatch.PrintExistingPatch`).
  That takes a line between the jobs key and the step that stands as far out as the key: a
  comment at the margin, or a blank line of a file with CRLF endings, which reads as a
  carriage return (`WorkflowBlocks.StepEndsInJobsExactly`,
  `ExistingPatch.CommentSpoilsPatch`).
- The policy refuses rows the comment reads when a row's `SubAccountId` is neither null
  nor a string, because only the policy's reader decodes that column
  (`PolicyUsage.ReadTwice`, `PolicyUsage.NumberedSubAccountParts`).
- Joining cache-write lifetimes hides a miss when the writes match as one figure and a
  lifetime by itself does not; it never creates one (`TokenChecks.JoiningHidesExactly`,
  `TokenChecks.JoiningCanHideAMiss`).
- A released delivery id leaves its queue entry behind, so a later claim of the same id
  can be forgotten early (`Deliveries.ForgetsExactlyTheShadowed`,
  `Deliveries.ReleasedIdIsForgotten`).
- A pull request's USD lifetime and the policy's total part when the first report that
  states this run's digest states another USD amount (`History.TotalsAgree`,
  `History.ClaimedDigestPartsTotals`).
- The count of requests in flight is outside 0..100 exactly when releases were run more
  often than requests were admitted, and it is the requests not yet released exactly when
  no release is run twice (`Limiter.InFlightInRangeExactly`,
  `Limiter.InFlightAreUnreleasedExactly`, `Limiter.DoubleReleaseMiscounts`).
- A charge period whose span ends before its first whole second does not end after it
  starts (`FocusRow.ChargePeriodHoldsSpan`, `FocusRow.PeriodCanBeEmpty`).
- `unifiedDiff`, on the one empty line that `splitLines` makes of an empty file, prints a
  patch that does not apply to it (`UnifiedDiff.PatchOf`). `costroid init` never asks for
  it, because an empty file holds no workflow.

## Model

| member | source | states |
|---|---|---|
| Decimals.Normal | internal/decimal/decimal.go:93-105 | the normal form has the same exact value, no more fractional digits, and none it does not need |
| Decimals.Normalise | internal/decimal/decimal.go:93-105 | the stripping loop returns the normal form |
| Decimals.NormalIsUnique | internal/decimal/decimal.go:15-19 | one value has one normal form |
| Decimals.EqualValuesEqualNormals | internal/decimal/decimal.go:15-19 | two decimals have one normal form exactly when they have one value |
| Decimals.FromInt | internal/decimal/decimal.go:82-84 | a whole number in normal form, at its value |
| Decimals.Rescale | internal/decimal/decimal.go:107-116 | a coefficient taken to a finer scale keeps its value |
| Decimals.Add | internal/decimal/decimal.go:119-122 | the exact sum, in normal form |
| Decimals.Sub | internal/decimal/decimal.go:125-128 | the exact difference, in normal form |
| Decimals.Mul | internal/decimal/decimal.go:131-134 | the exact product, in normal form, with no more digits than the factors have together |
| Decimals.DivPow10 | internal/decimal/decimal.go:137-139 | the exact quotient by a power of ten, in normal form |
| Decimals.Shift | internal/decimal/decimal.go:63-70 | the exact product by a power of ten of either sign, in normal form |
| Decimals.Cmp | internal/decimal/decimal.go:142-145 | the sign of the exact difference |
| Decimals.Sign | internal/decimal/decimal.go:148-150 | the sign of the exact value |
| Decimals.ScaleIsLeast | internal/decimal/decimal.go:153-155 | no decimal of the same value needs fewer fractional digits |
| DecimalText.ParseReadsText | internal/decimal/decimal.go:24-34 | Parse(String(d)) is d for every d of zero or more |
| DecimalText.ParseIsNonNegative | internal/decimal/decimal.go:24-34 | Parse reads no sign |
| DecimalText.TextShowsScale | internal/decimal/decimal.go:158-173 | a printed decimal has a point exactly when its value needs one, and no fractional digit more than that |
| DecimalText.ParseNumberReadsText | internal/decimal/decimal.go:43-61 | ParseNumber(String(d)) is d for every d |
| DecimalText.TextIsFaithful | internal/decimal/decimal.go:158-173 | two decimals print equally exactly when their values are equal, so a printed decimal is a sound map key |
| DecimalText.JsonNumberParses | internal/decimal/decimal.go:36-61 | a JSON number (section 6 of RFC 8259) is accepted exactly when its exponent is in -64..64, and then at its exact value |
| DecimalText.ParsedIsJson | internal/decimal/decimal.go:36-61 | every text ParseNumber accepts is the text of a JSON number |
| DecimalText.ParseNumberAcceptsJson | internal/decimal/decimal.go:36-61 | ParseNumber accepts exactly the JSON numbers whose exponent is in -64..64 |
| GatewayCount.RoundUpIsLeast | internal/gateway/count.go:137-145 | the rounded figure fits the scale, is not below the figure, and no decimal of that scale that is not below it is smaller |
| GatewayCount.LedgerReadsSpend | internal/gateway/count.go:127-145 | the printed spend reads back within 12 fractional digits, never below the count, and equal to it when it already fitted |
| UnifiedDiff.SplitLinesAreFileLines | cmd/costroid/init.go:692-696 | the lines and the newline flag are the file the patch format reads, except that an empty file becomes one empty line |
| Splice.NothingSpliced | cmd/costroid/init.go:711-749 | with nothing to insert the file the patch should make is the old one |
| Splice.SplicedOneByOne | cmd/costroid/init.go:711-749 | and one insertion more puts its lines into the file the others make, behind the old lines before its index and whatever they put there; a last line without a newline gains one when it stands before them |
| UnifiedDiff.WriteContextLine | cmd/costroid/init.go:753-765 | prints the line as context, or replaced by itself with a newline when text follows a last line that had none |
| UnifiedDiff.ContextSides | cmd/costroid/init.go:753-765 | what it prints takes the old line away and leaves the same line, its newline kept or gained exactly when something goes in at the end |
| UnifiedDiff.MergeHunk | cmd/costroid/init.go:719-728 | a hunk takes every insertion whose context meets the hunk so far, and every later one starts past its end; two in the wrong order always share a hunk |
| UnifiedDiff.CountInserted | cmd/costroid/init.go:729-732 | the lines a hunk inserts |
| UnifiedDiff.WriteAdded | cmd/costroid/init.go:737-739 | an insertion's lines are printed as added lines, in order |
| UnifiedDiff.WriteInserted | cmd/costroid/init.go:735-741 | every insertion at one index is printed before that line |
| UnifiedDiff.WriteBody | cmd/costroid/init.go:734-745 | a hunk's body removes exactly the old stretch of the file and leaves the spliced stretch |
| UnifiedDiff.WriteHunk | cmd/costroid/init.go:729-746 | a hunk is printed with the running offset, and its body removes the old stretch and leaves the spliced one |
| UnifiedDiff.HunkApplies | cmd/costroid/init.go:733-746 | a hunk whose header has the running offset applies where the new file has grown to its start: starts and counts match its body |
| UnifiedDiff.UnifiedDiff | cmd/costroid/init.go:711-749 | for any file and any ordered insertions in 0..len, or two out of order within three lines, the output prints hunks that apply in order, without overlap, and leave the spliced file; for two further out of order, one hunk that holds neither |
| UnifiedDiff.StrayDoesNotApply | cmd/costroid/init.go:733-745 | a header that counts insertions its body does not print applies to no file |
| UnifiedDiff.PatchOf | cmd/costroid/init.go:690-749 | the printed text of a file that is not empty gives exactly the spliced file for such insertions, and does not apply for two further out of order; of the one empty line an empty file splits into it does not apply |
| UnifiedDiff.NewlineKeptOrGained | cmd/costroid/init.go:753-765 | the patched file ends with a newline exactly when the old one did or something goes in at the end |
| PatchFormat.HeaderReads | cmd/costroid/init.go:733-733 | a printed header reads back exactly when none of its numbers is negative |
| PatchFormat.HeaderGone | cmd/costroid/init.go:715-715 | the two lines above the hunks name the file on its old side and on its new, as the reader wants them |
| PatchFormat.HunksRead | cmd/costroid/init.go:733-745 | reading printed hunks, headers and missing-newline markers gives back the hunks |
| PatchFormat.PrintedPatchApplies | cmd/costroid/init.go:715-749 | applying a printed patch is applying the hunks it was printed from |
| WorkflowBlocks.BlockEnd | cmd/costroid/init.go:636-651 | the line a block ends on: up to it all is blank or deeper, and behind it only blank lines before a line no deeper or the end |
| WorkflowBlocks.BlockEndUnique | cmd/costroid/init.go:636-651 | a block has one end |
| WorkflowBlocks.EndsInside | cmd/costroid/init.go:636-651 | a block that opens inside another, no less deep, ends inside it |
| WorkflowBlocks.StepEndsInJobsExactly | cmd/costroid/init.go:636-651 | a step below the jobs key ends inside its block exactly when no line between them, a comment included, stands as far out as the key |
| WorkflowBlocks.CommentEndsBlock | cmd/costroid/init.go:636-651 | a comment at the margin ends the jobs block four lines before the step behind it |
| ExistingPatch.ExistingInsertions | cmd/costroid/init.go:566-569 | the two insertions, one behind the end of each block, and inside the file |
| ExistingPatch.PlacedExactly | cmd/costroid/init.go:566-569 | they are placed exactly when the first is at most three lines behind the second |
| ExistingPatch.NestedBlocksAreOrdered | cmd/costroid/init.go:566-569 | they arrive in order exactly when no line between key and step stands too far out |
| ExistingPatch.PrintExistingPatch | cmd/costroid/init.go:500-521 | the patch of a workflow applies and adds both blocks exactly when the step's block ends at most three lines behind the jobs block; otherwise it does not apply |
| ExistingPatch.CommentSpoilsPatch | cmd/costroid/init.go:500-521 | a six-line workflow of one claude-code-action step with a comment at the margin, whose patch does not apply whatever the two blocks hold |
| Fanout.Workers | internal/fanout/fanout.go:11-16 | at least one chunk, otherwise no more than processors and than 256 items each allow, and as many as that allows |
| Fanout.LowCovers | internal/fanout/fanout.go:30-34 | the chunks cover the list |
| Fanout.LowGrows | internal/fanout/fanout.go:30-34 | the chunks follow one another |
| Fanout.ChunkOf | internal/fanout/fanout.go:30-34 | every index lies in a chunk |
| Fanout.OwnIndex | internal/fanout/fanout.go:30-34 | an index of one chunk lies in no other |
| Fanout.ChunksAreEven | internal/fanout/fanout.go:11-34 | no chunk is more than one item longer than another, and where there are several each has 256 items |
| Fanout.RunChunks | internal/fanout/fanout.go:23-61 | under every schedule each worker runs its chunk in order up to its first call that does not pass, and writes no other worker's slots |
| Fanout.ChunkDecides | internal/fanout/fanout.go:37-45 | the lowest worker that stopped early stopped at the lowest failing index |
| Fanout.Each | internal/fanout/fanout.go:18-61 | for any worker count and any interleaving the run returns, or panics with, what the sequential loop does; when all pass, every slot and every worker's notes are as in order |
| IngestRows.SplitLines | internal/server/rows.go:107-133 | the scan's non-blank lines with their numbers, up to an oversized one |
| IngestRows.ScanIsSplit | internal/server/rows.go:112-133 | scanning is splitting the body at once: every non-blank line under its own number, up to the first over the limit |
| IngestRows.OneByOneIsSequential | internal/server/rows.go:79-105 | reading line by line is the loop Each stands in for |
| IngestRows.DropsJoin | internal/server/rows.go:99-103 | fields left behind add up across chunks |
| IngestRows.AddDrops | internal/server/rows.go:99-103 | the workers' counts add up to those of the whole list |
| IngestRows.TakeCharges | internal/server/rows.go:88-104 | the charges of the lines in order |
| IngestRows.ParseRows | internal/server/rows.go:79-105 | however the lines are divided: the same charges, the earliest bad line ahead of a later oversized one, the same drop totals, and the caller's drops untouched on refusal |
| Limiter.NoWindowHoldsMore | internal/scm/limiter.go:26-51 | in a log whose entries are spaced, no half-open window of the period holds more than the limit, wherever it lies |
| Limiter.WaitsExactlyWhenFull | internal/scm/limiter.go:40-46 | a wait is above zero exactly when the window that ends now is full |
| Limiter.RefusedExactlyWhenFull | internal/scm/limiter.go:72-102 | below the in-flight ceiling a write is refused exactly when the minute holds 80 writes or the hour 500 |
| Limiter.AdmittedExactly | internal/scm/limiter.go:74-102 | a request is admitted exactly when fewer than 100 are in flight and, for a write only, neither window is full; at the ceiling the wait told is one second; an admission logs nothing but a write's instant |
| Limiter.RunIsJudged | internal/scm/limiter.go:74-102 | in every run from the start, an installation's log is the instants of the writes that its history alone says to admit, in order, and its count in flight is the requests so admitted less every run of a release |
| Limiter.AnswerIsJudged | internal/scm/limiter.go:74-102 | so after every run a request is admitted exactly when that history says so, whether it is a write or not |
| Limiter.RetryAfterWait | internal/scm/limiter.go:72-102 | a refused write tried again after exactly the wait it was told is admitted, and not sooner |
| Limiter.EveryRunKeepsTheLimits | internal/scm/limiter.go:72-102 | in every run of admissions and releases, releases run twice included, no rolling minute holds more than 80 writes, no rolling hour more than 500, and the count in flight never passes 100 |
| Limiter.CountFollowsReleases | internal/scm/limiter.go:96-101 | in every run the count in flight moves with the admissions, less one for every run of a release |
| Limiter.InFlightInRangeExactly | internal/scm/limiter.go:96-101 | so it is in 0..100 exactly when releases were run no more often than requests were admitted |
| Limiter.InFlightAreUnreleasedExactly | internal/scm/limiter.go:96-101 | and it is the requests admitted less those released exactly when no release of the installation is run twice |
| Limiter.InFlightInRange | internal/scm/limiter.go:96-101 | when none is run twice it stays in 0..100 |
| Limiter.DoubleReleaseMiscounts | internal/scm/limiter.go:97-101 | a release run twice leaves a count of -1 |
| Limiter.RingTurns | internal/scm/limiter.go:48-51 | writing a ring's oldest slot and moving on drops its oldest entry and adds the newest |
| Limiter.LogGrows | internal/scm/limiter.go:26-51 | so does taking the tail of a longer log |
| Limiter.Bucket.constructor | internal/scm/limiter.go:35-37 | an empty ring stands in for an empty log |
| Limiter.Bucket.Wait | internal/scm/limiter.go:40-46 | the wait read off the ring is the wait the whole log gives |
| Limiter.Bucket.Take | internal/scm/limiter.go:48-51 | one entry more in the log |
| Limiter.Quota.Admit | internal/scm/limiter.go:86-96 | a refusal changes nothing and states the longer wait; an admission is in both rings and in flight |
| Limiter.Limiter.Admit | internal/scm/limiter.go:72-102 | one step of the specified run for the installation, and no other installation changes |
| Limiter.Limiter.Release | internal/scm/limiter.go:97-101 | each run of an admitted request's release takes one off the count, as often as it is run, and nothing else changes |
| Wire.Uvarint | internal/otlp/protobuf.go:89-119 | a varint read lies inside the message and below 2^64 |
| Wire.ReadPayload | internal/otlp/protobuf.go:89-119 | what a wire type takes lies inside the message |
| Wire.ReadField | internal/otlp/protobuf.go:89-119 | a field read is not empty and lies inside the message |
| Wire.Walk | internal/otlp/protobuf.go:58-87 | on any bytes the walk ends and calls fn on the decoded fields in order, until one is refused or malformed |
| Wire.DecodesExactlyMessages | internal/otlp/protobuf.go:58-119 | the reader accepts exactly the messages of the wire grammar, and finds exactly their fields |
| Wire.WalkUndoesEncoding | internal/otlp/protobuf.go:58-119 | walking the encoding of any varint, fixed64, fixed32 and length-delimited fields calls fn on exactly those fields in order |
| Wire.AppendUvarint | internal/server/telemetry.go:179-185 | a varint of the value |
| Wire.PartialSuccessReads | internal/server/telemetry.go:179-185 | walking the answer and then the message inside it recovers the count |
| Doubles.IntegralDoubleReadsWholeNumbers | internal/otlp/protobuf.go:262-299 | for all 2^64 patterns: text exactly when the binary64 (section 3.4 of IEEE 754-2019) is whole with magnitude below 2^63, and the text is that number |
| Doubles.DoubleIsCount | internal/otlp/dialect.go:178-193 | composed with parseCount, a double is a count exactly when it is a whole number in 0..10^12, at its exact value |
| Doubles.DoublesAreRead | internal/otlp/protobuf.go:241-260 | every double among a message's fields is a 64-bit pattern and is read as such |
| Doubles.ScalarReads | internal/otlp/protobuf.go:241-260 | a value of one field reads as the bytes of its string, the word of its bool, the digits of its two's complement int64, and as no scalar when it is of another number or type |
| Doubles.LastScalarWins | internal/otlp/protobuf.go:241-260 | of several fields the last scalar is the value, whatever other fields stand around it |
| Doubles.EncodedDoubleIsCount | internal/otlp/protobuf.go:241-260 | an attribute message that carries a double states a count exactly when the double is such a number |
| Doubles.EncodedIntIsCount | internal/otlp/protobuf.go:241-260 | an attribute message that carries an int64, two's complement, states a count exactly when it is in 0..10^12 |
| OtlpCounts.ParseCountExactly | internal/otlp/dialect.go:178-193 | accepted are exactly an optional sign and digits, with any zeros behind a point, whose value is in 0..10^12, a minus only before zero; and at that value |
| OtlpCounts.ParseCountReads | internal/otlp/dialect.go:178-193 | so a printed whole number is accepted exactly in that range |
| OtlpCounts.Usage.ApplyCounts | internal/otlp/dialect.go:348-377 | accepted exactly when reasoning is no more than the output and an input that holds the cache covers it; then each class appears at most once, with tokens, and holds its raw figure: output, reasoning, cache reads twice, the input less what it holds of the cache, each split write, and the unsplit rest in the one class that provider, plan and basis name, marked assumed; no int64 overflows |
| OtlpCounts.Usage.Add | internal/otlp/dialect.go:379-383 | one class gains its tokens, a count of none adds no entry |
| OtlpCounts.Usage.AddWrites | internal/otlp/dialect.go:385-404 | the split writes and the unsplit rest land in their classes, and the rest is marked assumed |
| OtlpCounts.Usage.MergeCount | internal/otlp/dialect.go:406-414 | tokens join the class's one entry |
| OtlpCounts.ClassesAddUp | internal/otlp/dialect.go:348-414 | write classes add up to every write, billed classes to context input plus output, and to input plus output when input holds the cache; the billed classes are exactly those that are not informational |
| RowsDigest.WrittenDigest | internal/run/rows.go:67-87 | the writer's digest: none for no rows or a row without an id |
| RowsDigest.DigestHashesIds | internal/run/rows.go:78-87 | the text hashed is every id, least first in byte order, 64 characters each with a line feed behind it, and nothing else |
| RowsDigest.DigestNamesRows | internal/run/rows.go:67-87 | under a hash that keeps texts apart, two lists of ids have one digest exactly when they hold the same ids equally often, or neither names its rows |
| RowsDigest.DigestForgetsOrder | internal/run/rows.go:67-87 | the digest depends only on the multiset of row ids |
| RowsDigest.SplitExtends | cmd/costroid/report.go:240-255 | splitting a longer text is splitting what stood behind the last newline with the new piece |
| RowsDigest.Reader.Row | cmd/costroid/report.go:257-272 | one line's row id is kept, or the rows become unnamed; an empty line is no row |
| Strings.OneReturnDrops | cmd/costroid/report.go:257-262 | a line loses one carriage return, and only from its end |
| RowsDigest.Reader.Write | cmd/costroid/report.go:240-255 | after any pieces the reader's state is that of the whole text split at once |
| RowsDigest.Reader.Sums | cmd/costroid/report.go:274-290 | the digests of the whole file, however it was cut into writes |
| RowsDigest.FileHoldsRows | cmd/costroid/report.go:240-272 | a file of rows with LF or CRLF endings and blank lines anywhere holds its rows in order |
| RowsDigest.ReportAgreesWithRun | cmd/costroid/report.go:292-325 | for any order of the rows, any endings and any blank lines, the report's digest is the one the run stated |
| RowsDigest.FinalNewlineIsOptional | cmd/costroid/report.go:274-290 | a missing final newline changes no row |
| Egress.StepConserves | internal/egress/counters.go:53-88 | no step loses a count or puts one in two places |
| Egress.EveryRunConserves | internal/egress/counters.go:53-88 | under any interleaving of recorders and flushes, failed writes included, recorded equals pending plus in flight plus stored for every day, host and outcome |
| Egress.EveryRecordIsSomewhere | internal/egress/counters.go:53-88 | so from the start the number of calls recorded is what is pending, in flight and stored |
| Egress.FailedFlushChangesNothing | internal/egress/counters.go:69-88 | a flush that fails leaves every count where it was |
| Egress.FlushStoresEverything | internal/egress/counters.go:77-88 | with no other activity a successful flush leaves everything stored |
| Egress.Counters.Record | internal/egress/counters.go:53-59 | one call more is pending |
| Egress.Counters.TakePending | internal/egress/counters.go:61-67 | what was pending is in flight, and nothing is pending |
| Egress.Counters.AddBack | internal/egress/counters.go:69-75 | counts are added key by key in any order of the map |
| Egress.Counters.PutBack | internal/egress/counters.go:69-75 | a failed flush's counts are pending again, beside those recorded since |
| Egress.Counters.Write | internal/egress/counters.go:77-88 | a write stores all it took or nothing |
| Egress.Counters.Flush | internal/egress/counters.go:77-88 | a success stores what was pending and a failure changes nothing |
| Deliveries.HeldIsLive | internal/scm/webhook.go:48-77 | for an id never released the pruned store answers as the whole log would |
| Deliveries.ForgetsExactlyTheShadowed | internal/scm/webhook.go:61-85 | with releases, the store forgets a live claim exactly when each one follows, within the retention, an expired claim of the id |
| Deliveries.PruneKeepsHeld | internal/scm/webhook.go:61-77 | expiry takes away exactly the ids whose claims leave the queue |
| Deliveries.AcceptHolds | internal/scm/webhook.go:61-77 | an accepted claim holds its id and changes no other |
| Deliveries.ReleaseHolds | internal/scm/webhook.go:79-85 | a release lets go of its id and changes no other |
| Deliveries.MemoryDeliveries.Expire | internal/scm/webhook.go:66-71 | the loop stops at the first claim inside the retention |
| Deliveries.MemoryDeliveries.Claim | internal/scm/webhook.go:61-77 | true exactly when the id is not held, and for an id never released exactly when it has no accepted claim in 72 hours; a refusal extends nothing; the queue holds only claims inside the retention |
| Deliveries.MemoryDeliveries.Release | internal/scm/webhook.go:79-85 | the id is forgotten |
| Deliveries.ReleasedIdIsForgotten | internal/scm/webhook.go:79-85 | an id claimed, released and claimed again is forgotten before its second claim's retention ends |
| Deliveries.ReclaimAfterRelease | internal/scm/webhook.go:61-85 | the same on the store |
| Deliveries.Queue.Offer | internal/scm/webhook.go:97-105 | an event is queued exactly when there is room |
| Deliveries.Enqueue | internal/scm/webhook.go:199-214 | an event is queued exactly when its delivery is not held and there is room; a held one is not queued again, and one that does not fit gives up its claim |
| FocusRow.NewRowChecksExactly | internal/focus/row.go:119-149 | a row built from a count and a price of zero or more passes the check exactly when price and cost keep to 12 fractional digits |
| FocusRow.NewRowPassesCheck | internal/focus/charge.go:69-126 | every price of at most six fractional digits per million tokens makes a row that passes |
| FocusRow.CheckIsExact | internal/focus/row.go:119-149 | the check holds exactly when no amount is negative or past 12 fractional digits, nothing is billed, and both costs recompute |
| FocusRow.NewRowCosts | internal/focus/charge.go:105-125 | a priced row counts millions of tokens and costs its unit price for each, at list and as contracted; an informational one counts single tokens and costs nothing; it is effective only when measured, and not billed yet |
| FocusRow.QuantityOf | internal/focus/charge.go:112-117 | the pricing quantity is the tokens in millions, exactly |
| FocusRow.ChargePeriodHoldsSpan | internal/focus/charge.go:140-149 | whole seconds that hold the span and no second more; it ends after it starts exactly when the span does not end before its first whole second |
| FocusRow.PeriodCanBeEmpty | internal/focus/charge.go:140-149 | a span that ends a second before it starts gets an empty period |
| RowArithmetic.ParseAmountExactly | internal/comment/rows.go:415-427 | accepted are exactly decimal literals of at most 64 characters with only zeros past the twelfth fractional digit, at the value they write |
| RowArithmetic.UnitSizeReads | internal/comment/rows.go:400-413 | a billed unit is the print of a count of tokens in 1..10^12-1 and the word Tokens, and holds that count; an informational class's own unit holds one, and no other unit does |
| RowArithmetic.ArithmeticExactly | internal/comment/rows.go:361-398 | columns are taken exactly when the four amounts parse, meter and unit are known, both products agree to the last digit and an informational class costs nothing; the trace holds those columns |
| RowArithmetic.AcceptedIsExact | internal/comment/rows.go:361-398 | an accepted row has Cost x unit size = UnitPrice x Tokens exactly, no negative amount, and no cost for an informational class |
| RowArithmetic.WrittenRowIsAccepted | internal/comment/rows.go:361-427 | the comment's reader accepts every row the writer makes whose amounts print within 64 characters, at its cost and tokens; an informational one at cost 0 |
| CommentRows.AcceptsExactly | internal/comment/rows.go:252-265 | a row is read exactly when its currency is three capital letters, each of its tags is a word of its vocabulary, and its arithmetic holds |
| CommentRows.LinesMergeExactly | internal/comment/rows.go:293-300 | rows share a trace line exactly when they share catalog, price id, class and unit, and one exact price |
| CommentRows.MergedIsExact | internal/comment/rows.go:293-306 | trace lines merged by the printed price still recompute |
| CommentRows.AddKeepsSound | internal/comment/rows.go:252-306 | a figure stays the sum of its trace lines' costs and per-class tokens |
| CommentRows.LogAddsCost | internal/comment/rows.go:308-336 | a row adds its cost to the request log until the log overflows |
| FigureRows.RowStates | internal/comment/rows.go:293-306 | with one row more, a figure's cost, row count, class tokens and every trace line are the sums over the rows that carry its key |
| FigureRows.FiguresStateMore | internal/comment/rows.go:252-291 | a row goes to the figure of its currency, basis and enforcement, unattributed whatever it claims, and to no other; there is a figure exactly where there is such a row |
| FigureRows.KeyIsOf | internal/comment/rows.go:430-447 | the key a row is filed under is that of its own columns, and always unattributed |
| FigureRows.LogsStateMore | internal/comment/rows.go:308-336 | a row goes to the log of its currency and basis and to no other |
| RequestRuns.LogHoldsRuns | internal/comment/rows.go:308-336 | the log's requests are the rows cut into longest runs that share start, end, session and model and repeat no class, each at the end of every row of its run, at their cost and billed tokens; it overflows exactly when there are more than 100000 |
| RequestRuns.RunsAreUnique | internal/comment/rows.go:308-336 | rows are cut into such requests in one way only |
| CommentRows.FiguresStep | internal/comment/rows.go:252-291 | with one row more, the figures of every currency add up to its rows, each in a currency and of a basis there are |
| CommentRows.RequestsStep | internal/comment/rows.go:308-336 | with one row more, the logged requests of every currency and basis add up to its figures |
| CommentTally.Tally.Add | internal/comment/rows.go:252-291 | a row is added exactly when it is acceptable; every figure then states exactly the rows of its columns, and every log those of its currency and basis |
| CommentTally.ReadRows | internal/comment/rows.go:216-250 | figures exactly when every row is acceptable; one bad row refuses them all |
| Overshoot.Crossing | internal/comment/rows.go:338-359 | the first request that takes the spend past the cap: every earlier total is within it |
| Overshoot.OvershootTokens | internal/comment/rows.go:338-359 | the billed tokens of the suffix, in end order, that starts at that request; unknown exactly when no log is kept |
| OvershootRows.OvershootIsOfRows | internal/comment/rows.go:338-359 | told from the rows: those of the currency and basis are cut into requests, taken in the order of their ChargePeriodEnd, equal ends as they came, and the overshoot is what the rows bill from the first request on that takes the cost past the cap |
| OvershootRows.SortStates | internal/comment/rows.go:347-348 | sorting requests by their end sorts the runs of rows they state |
| Sorting.SortByIsTheStableSort | internal/comment/rows.go:347-348 | sorting gives the one sorted list that keeps requests of equal ends in their order |
| Sorting.LeqIsLexicographic | internal/comment/rows.go:348-348 | the order is the dictionary's: a text leads the other, or is smaller where they first differ |
| Overshoot.SortKeepsCosts | internal/comment/rows.go:347-348 | sorting by end changes no total |
| Overshoot.TokensPastExactlyWhenOver | internal/comment/rows.go:338-359 | with a cap of zero or more, tokens are past it exactly when the requests cost more than it |
| Overshoot.TokensAgreeWithCost | internal/comment/rows.go:338-359 | so for a log that adds up to a figure, token overshoot is positive exactly when cost overshoot is |
| Overshoot.UsdFigures | internal/comment/budget.go:36-43 | the bases and the cost of the figures shown in USD |
| Overshoot.Compare | internal/comment/budget.go:49-58 | remainder minus overshoot is cap minus cost, neither is negative and one is zero |
| Overshoot.CapCheck | internal/comment/budget.go:29-59 | compared exactly when no figure is omitted and USD has one basis; the cost is then that figure's, the tokens are those past the cap in its log, and both overshoots are positive together |
| PolicyUsage.ReadUsage | internal/policy/usage.go:123-192 | each currency's total is the exact cost and the count of its rows; none exactly when a row is refused, a sub-account that is no string included |
| PolicyUsage.UsageAcceptsExactly | internal/policy/usage.go:157-175 | a row is taken exactly when its sub-account is null or a string, its currency three capital letters and its list cost an amount, whatever its other columns hold |
| PolicyUsage.PolicyAcceptsExactly | internal/policy/usage.go:95-100 | of the rows the comment's reader accepts, the policy's refuses exactly those whose sub-account is no string |
| PolicyUsage.NumberedSubAccountParts | internal/policy/usage.go:157-161 | a row with a number for its sub-account is read by the comment and makes the policy refuse its file |
| PolicyUsage.ReadersAgree | internal/policy/usage.go:123-155 | in every currency the comment's figures add up to the policy's total of the same rows |
| PolicyUsage.ReadTwice | internal/policy/usage.go:123-192 | over a file the comment's reader accepts, the policy's succeeds exactly when every sub-account decodes, and then their totals agree |
| ReportSums.FigureCost | internal/comment/lifetime.go:38-54 | an amount exactly for a currency code, a known basis and a decimal literal; in normal form and never negative |
| ReportSums.FigureCostReads | internal/comment/lifetime.go:38-54 | a printed amount of zero or more is read back exactly |
| ReportSums.ExcludingOne | internal/history/history.go:156-191 | leaving one digest out takes away exactly what the first report that states it adds |
| ReportSums.KeptSum | internal/history/history.go:225-267 | what is counted is every undigested report, and each digest not left out once |
| ReportSums.KeptForgetsOrder | internal/history/history.go:156-191 | what is counted does not depend on the order of the reports |
| ReportSums.RepeatAddsNothing | internal/history/history.go:225-267 | a digested report repeated anywhere adds nothing |
| History.ParseObject | internal/history/history.go:62-95 | a report is taken exactly when its schema is one of four, its amounts are shown, no figure is left out or without an amount, and its digest, if any, is well-formed; it holds the object's figures and only the newest schema's digest |
| History.AddReport | internal/history/history.go:239-257 | one report's figures join the sums, and it counts once for each currency and basis |
| History.Total | internal/history/history.go:225-267 | every figure, its report count and its undigested mark are those of the reports kept; none exactly when a kept report has a bad figure |
| History.AddEarlier | internal/history/history.go:177-188 | one report's USD over every basis, and whether it holds another currency |
| History.Earlier | internal/history/history.go:156-191 | the USD, other-currency and may-repeat answers are those of the reports kept when own's digest is left out |
| History.EarlierMarks | internal/history/history.go:156-191 | of the reports themselves: rows may be counted twice exactly when one with figures states no digest or this run states none, and another currency is met exactly in a report other than this run's own |
| History.TotalsForgetOrder | internal/history/history.go:156-267 | when one digest means one set of figures, permuting the reports changes neither total |
| History.TotalsIgnoreRepeats | internal/history/history.go:156-267 | and neither does posting a digested report again, anywhere |
| History.TotalsAgree | internal/history/history.go:130-154 | the lifetime's USD over every basis is earlier plus own exactly when the first report of own's digest, if any, states own's USD |
| History.ConsistentTotalsAgree | internal/history/history.go:130-154 | so it always is when one digest means one set of figures |
| History.ClaimedDigestPartsTotals | internal/history/history.go:156-267 | for every digest, two objects the reader takes, the earlier of which states no figure, part the two totals |
| History.PrintedIsCosted | internal/comment/render.go:469-484 | every figure of accepted rows, as printed, is one the reader of result objects takes |
| History.PrintedSums | internal/comment/render.go:469-484 | whichever currencies and bases are picked, the figures as printed read back to the cost of the figures |
| History.OwnReportStatesFigures | internal/comment/render.go:469-484 | a report that prints every figure states, for each currency and basis, what the figures of the rows cost |
| History.OwnReportStatesUsage | internal/policy/usage.go:60-67 | a report that prints every figure of the rows is one the reader takes, and states the USD the policy's reader finds in them |
| History.LifetimeIsPolicyTotal | internal/policy/baseline.go:69-73 | from the rows to both totals: the comment's USD lifetime is the policy's total under exactly that condition |
| History.CheckRunBlocks | internal/history/history.go:110-128 | the reports among a commit's check runs, and how many were refused |
| History.Read | internal/history/history.go:130-154 | every commit's reports in order, both totals, and neither sum can fail |
| TokenChecks.Absolute | internal/reconcile/reconcile.go:306-311 | the distance from zero |
| TokenChecks.WithinIsClose | internal/reconcile/reconcile.go:298-304 | the difference is at most the percentage of the provider's figure, exactly; a provider's zero matches only zero |
| TokenChecks.SumTokens | internal/reconcile/tokens.go:52-60 | each class's exact total in normal form, whatever order the maps are read in |
| TokenChecks.JoinWrites | internal/reconcile/tokens.go:62-72 | every write in one figure, none in a lifetime, every other class unchanged |
| TokenChecks.JoiningKeepsTotal | internal/reconcile/tokens.go:62-72 | joining conserves the total over the classes compared |
| TokenChecks.JoiningCreatesNoMiss | internal/reconcile/tokens.go:26-50 | classes within the tolerance apart are within it joined |
| TokenChecks.JoinedMatchesExactly | internal/reconcile/tokens.go:26-50 | joined, the sides match exactly when their writes match as one figure and every other class matches |
| TokenChecks.JoiningHidesExactly | internal/reconcile/tokens.go:26-50 | joining hides a miss exactly when that holds and some write class by itself does not match |
| TokenChecks.JoiningCanHideAMiss | internal/reconcile/tokens.go:26-50 | swapped lifetimes are such a pair |
| TokenChecks.CompareTokens | internal/reconcile/tokens.go:26-50 | a true check of every class either side holds, in print order; in either mode the deltas add up to provider total minus ledger total |
| TokenChecks.CheckedExactly | internal/reconcile/tokens.go:34-48 | a class has a check exactly when it is one of those compared and either side holds it |
| Pricing.StandardHasNoPremium | internal/reconcile/dollars.go:116-171 | records all served at the standard tier in the global region cost the same at every basis, and carry no note |
| Pricing.PricedExactly | internal/reconcile/dollars.go:116-171 | records have a price exactly when the catalog answers each lookup that a class of theirs with tokens needs: standard, and unless committed the tier, and the region where there is one |
| Pricing.StandardIsListed | internal/reconcile/dollars.go:123-133 | whatever they were served at, tokens cost at the standard basis the standard tier's list price for every million of them |
| Pricing.TiersAreListed | internal/reconcile/dollars.go:147-159 | tokens of tiers the catalog names cost, at their tier, that tier's own list price |
| Pricing.CommittedTokensCostNothing | internal/reconcile/dollars.go:147-150 | tokens of Anthropic's priority tier cost nothing at their tier, nor as served |
| Pricing.RegionsWithoutMultiplier | internal/reconcile/dollars.go:160-170 | tokens served where no multiplier applies cost as served what they cost at their tier |
| Pricing.StandardTierAddsNothing | internal/reconcile/dollars.go:147-159 | tokens of the standard tier cost the same at their tier, wherever served |
| Pricing.NotesNameFallbacks | internal/reconcile/dollars.go:116-142 | the notes of a pricing name exactly the records some of whose tokens only a fallback row prices |
| Pricing.FallbackTiersAddNothing | internal/reconcile/dollars.go:144-171 | tokens of tiers the catalog does not name cost the same at their tier as at the standard one, over all records |
| Pricing.ResidencyMultiplies | internal/reconcile/dollars.go:144-171 | where every class was served in a region of one factor, all the records as served cost that factor times their cost at their tier |
| Pricing.PriceRecord | internal/reconcile/dollars.go:116-137 | one record's classes, in any order, each priced at the three bases |
| Pricing.PriceAll | internal/reconcile/dollars.go:116-142 | each basis's exact total over the records and the sorted notes; none exactly when a class with tokens has no price |
| Pricing.PricingForgetsOrder | internal/reconcile/dollars.go:116-142 | whatever order the maps are read in, the records have one pricing, down to its decimals and notes |
| Dollars.CostOf | internal/reconcile/report.go:75-107 | the day's token and other amounts; a list total exactly when a token line exists and all state one |
| Dollars.RoundingIsTheStandards | internal/reconcile/tolerance.go:14-51 | in every currency with a smallest unit, comparing squares is FOCUS 1.4's tolerance MAX(100 x Subunit, SQRT(Rows) x 0.5 x Subunit) |
| Dollars.RoundingOfCheck | internal/reconcile/dollars.go:80-90 | a check's rounding is the list total less the ledger, within a dollar or half a cent times the root of the rows |
| Dollars.Attribute | internal/reconcile/dollars.go:70-76 | each cause that is not zero is named and taken off the residual |
| Dollars.DollarsOf | internal/reconcile/dollars.go:20-78 | every part of the check, its residual always its named causes plus the unattributed part, and the notes beside it; none exactly when a side has no price |
| Dollars.CheckIsUnique | internal/reconcile/dollars.go:20-78 | there is one such check: nothing depends on the order a map is read in |
| Dollars.CausesState | internal/reconcile/dollars.go:55-69 | a cause states what the tiers, or the regions, add on the provider's side past the ledger's, what the provider's tokens cost past the ledger's, or how far the amount is from the list |
| Dollars.NamedExactly | internal/reconcile/dollars.go:55-76 | a cause is named exactly when it accounts for something, a shared key only where the provider counts more and a contract only where a list is stated |
| Dollars.NoTierNoRegionNoCause | internal/reconcile/dollars.go:55-76 | tokens all of the standard tier name no tier cause, and tokens of no region no residency cause |
| Dollars.UnattributedIs | internal/reconcile/dollars.go:55-76 | what stays unattributed, whichever causes there can be, is the list total or the amount, less the ledger, less what the premiums differ by and, with a shared key, the tokens too |
| Dollars.ProviderHighExactly | internal/reconcile/dollars.go:92-98 | the provider counts more exactly when a class compared is past the ledger's count by more than the tolerance |
| Dollars.SameTokensExplainNothing | internal/reconcile/dollars.go:55-76 | when both sides' tokens cost the same at every basis only the contract rate can be a cause, and unattributed is the list total, or the amount, less the ledger |
| Dollars.UnattributedTelescopes | internal/reconcile/reconcile.go:106-117 | with a shared key and a stated list, unattributed is (list - provider as served) - (ledger - ledger as served) |

## Left out

- HTTP servers and clients, GitHub, GitLab and LiteLLM, flags, environment and files: input and output. `Settled`, the gateway's polling loop, is left out with them.
- The policy pack, its engine, JSON Schema and YAML parsing, and all cryptography: foreign code, or parameters here.
- Comment text, templates, tables and notes' display; the order of trace lines and of printed figures; the caps on how many figures, models or traces are shown, except that `CapCheck` takes the figures shown and knows how many are omitted.
- The comment's counts of fallback rows, agents, models and catalogs, and the policy reader's counts of models and joinable rows: single additions beside the totals that are modelled. The weakest enforcement grade is not modelled.
- Line scanning in the two rows readers: `CommentTally.ReadRows` and `PolicyUsage.ReadUsage` take decoded rows, and a line neither decodes is not modelled. The scanner's limit on a line is modelled where ingest uses it (`IngestRows.SplitLines`).
- Reading commits from the host in parallel, adding the head to them, and the trust of a lifetime: `History.Read` takes each commit's decoded check runs in order.
- Grouping ledger rows by credential and day, settled days and final months: `DollarsOf` and `CompareTokens` take one group's rows, and `Pricing` takes one source's and one day's catalog lookups as a function.
- Egress.Counters.Write: the sink stores a write whole or not at all, as its contract with the database says; the order in which the counts reach the sink is not modelled.
- Limiter.Limiter.Release: the release is a method of the limiter that names its request, instead of a closure.
- ExistingPatch.PrintExistingPatch: what reading the file as YAML finds is a parameter, as are the lines of the two blocks, which hold no newline of their own.
- Doubles.IntegralDoubleReadsWholeNumbers: masks and shifts are remainders, products and quotients by powers of two.
- DecimalText.JsonNumberParses: lower-casing is of ASCII letters; Go's also lower-cases letters outside ASCII, which no accepted number contains.
- Deliveries.MemoryDeliveries.Claim: the queue's storage is a sequence that is cut at the front, so sharing of its backing array is not modelled; nor is the lock, because a call is one step.
- RowArithmetic.WrittenRowIsAccepted: the row's other columns are arbitrary; a charge without a price is one of an informational class, as the charge's own documentation says.
- UnifiedDiff.UnifiedDiff: three or more insertions out of order are not modelled; the program passes two.
- GatewayCount.RoundUpIsLeast: the figure is zero or more and the scale above zero, as the caller's constant and the reading of the spend ensure.
- OtlpCounts.Usage.ApplyCounts: the figures are within the bound that reading a count keeps, and the usage is as its shell leaves it.
