# Inkling Ampere: verified models

Dafny models of six parts of the Inkling Ampere repository, each proved against a specification that is simpler than
the code. Run `dafny verify dfyconfig.toml` in this directory.

- **Unified-diff applier.** `UnifiedDiff` holds the section lines, what a section means hunk by hunk, and the
  interpreter as nested loops proved equal to it. `UnifiedDiffProofs` says which patches are accepted, how long the
  output is, when a printed diff round-trips, and when swapping its sides undoes it. `UnifiedDiffText` carries this
  over to whole files, which are split, patched and joined. `PatchSet` splits a patch into sections and applies them to
  a file tree.
- **Activation artifact store.** `Artifacts` is the data model: staging directory and store are maps, the codec is a
  pair of functions with `decompress(compress(x)) = x`, digests are functions that are injective where a statement
  says so. `ArtifactWriter` is the writer as a class with the original's fields and rollback; `ArtifactReader` the
  reader and the verifier; `ArtifactSoundness` what a passed verification means; `ArtifactRuns` the invariant over all
  runs of calls, failed ones included, up to the round trip; `RankSet` the assembly of one artifact per rank.
- **Resumable transfers.** In `Upload` and `Download` a script chooses everything that may go wrong: lost answers,
  partial acceptance, expired sessions, ignored ranges, a crash between any two steps. `UploadProofs` and
  `DownloadProofs` state safety over all runs of attempts, `UploadDrift` exactly when it holds.
- **Attention, experts, quantizer.** Over exact reals, with any positive `exp` and any `silu`. `Attention` and
  `AttentionProofs` show that attention through a block table is dense attention; `Softmax` what an output means, as an
  average of the values seen; `SampledAttention` that the window-truncated reference is the full one; `ExpertShards` and
  `ShardedWeights` that tensor-parallel shards of gated experts, quantized or not, add up to the whole layer;
  `Quantizer` bounds the 8-bit groupwise quantizer with its BF16 scale. `Sums` has the finite sums, `Rounding` the
  rounding to integers.
- **Checkpoint inventory.** `Ranges` and `Inventory` cover one shard's header and the reconciliation of all headers
  with the index; `Modules` the totals per module.
- **Validation controller and token calibration.** `Controller` is the phases and the five cleanup stages against a
  cloud in which any call may raise before or after its effect, and a signal may arrive at any time; `Calibration` the
  bounded search for a prompt length.

## What the code does not do

These statements, which one might expect, are false of the code. Each has a counterexample and an exact condition.

- A hunk without old lines below the top is put one line too high, because 1 is taken from every non-zero old start
  (`MisplacedInsertion`; exact condition in `RoundTrip` and `PrintedDiffAppliesExactlyWhen`).
- Output lines are joined without regard to terminators, so that a line added behind an unterminated one runs into it
  (`LinesRunTogether`; exact condition in `WrittenExactlyWhen` and `FileRoundTrip`).
- An upload attempt does not re-seek its file after a short acknowledgement; two attempts can then store corrupt
  content and return it as verified (`ShortAcknowledgementCorrupts`; exact condition for the object over all runs in
  `ObjectExactlyWhen`, for the sessions in `PrefixesExactlyWhen`; they differ, see `DriftGivenUp`).
- An empty file is not uploaded by any number of attempts, unless a position query happens to complete its session
  (`EmptyFileUploadsExactlyWhen`, which is exact over all runs; `FaultlessReturnsExactlyWhen` for one attempt).
- An empty file is never downloaded from scratch (`EmptyNeverDownloads`; exact condition in `RecoverableExactlyWhen`).
- A failed `write_tensor` restores everything but may leave the file of the one chunk that was written and not yet
  recorded; that number is then taken for good, and every later tensor that needs it is refused (`OrphanBlocksRetry`,
  `OrphanBlocksForever`; exact condition in `FailureRestores` and `CleanExactlyWhen`).
- An empty tensor that shares no byte with another is refused when it lies strictly inside it (`EmptyTensorRefused`;
  exact condition in `AcceptableExactlyWhen`).
- A teardown without any fault may leave the native job behind, because waiting for the cancelled job stops at the
  first read after a termination signal (`TerminatedRunLeavesJob`; exact condition in `CleanUp` and `Execute`).
- The `filler_repetitions` that calibration reports need not be those of the prompt it returns (`ReportedElsewhere`;
  exact condition in `ReportedExactlyWhen`).

A wrong partial download of full size is stuck for good (`StuckForever`, `RecoverableExactlyWhen`). A tolerance of at
least `sys.maxsize` would let the calibration loop stop without a result; the model returns `NothingFound` there.

## Model

| member | source | states |
|---|---|---|
| `UnifiedDiff.ApplyFile` | scripts/apply_unified_diff.py:24-91 | the cursor-driven nested loops return exactly what the declarative reading of the section gives: the output lines before they are joined, or the first hunk's refusal, and the number of hunks |
| `UnifiedDiff.TakeHunk` | scripts/apply_unified_diff.py:30-91 | one turn of the outer loop: either the whole section is refused for this hunk's reason, or cursor, index and output stand before the next hunk |
| `UnifiedDiff.InterpretHunk` | scripts/apply_unified_diff.py:30-87 | a hunk is refused for an invalid start, a context mismatch or a count mismatch, in that order, or emits the lines before it and its merged body |
| `UnifiedDiff.ConsumeBody` | scripts/apply_unified_diff.py:44-81 | the inner loop: how far the old side matches, the lines emitted, and both counts, noise and "no newline" lines skipped |
| `UnifiedDiffProofs.AcceptedExactlyWhen` | scripts/apply_unified_diff.py:35-87 | a patch is accepted if and only if its hunks are ordered without overlap and each stands where its header says, with both counts exact |
| `UnifiedDiffProofs.SameLineExactlyWhen` | scripts/apply_unified_diff.py:18-19 | two lines count as the same if and only if they are one text that ends in neither CR nor LF, each followed by any number of these |
| `UnifiedDiffProofs.DifferenceRefused` | scripts/apply_unified_diff.py:61-73 | a section is refused when a line it keeps or deletes differs from the file's line in anything but CR and LF at the end, or lies past the end of the file |
| `UnifiedDiffProofs.RefusedExactlyWhen` | scripts/apply_unified_diff.py:35-87 | a hunk is refused for its start, for its old lines or for its counts, each under its own exact condition |
| `UnifiedDiffProofs.MismatchIsFirst` | scripts/apply_unified_diff.py:61-73 | the line of a reported context mismatch is the first, counted from 1, at which file and hunk part |
| `UnifiedDiffProofs.FirstRefused` | scripts/apply_unified_diff.py:30-87 | the number a refusal carries is that of the first hunk that does not stand, counted from 1; the hunks before it are accepted |
| `UnifiedDiffProofs.NoHunksExactlyWhen` | scripts/apply_unified_diff.py:88-89 | a section is refused for having no hunk if and only if it has no hunk header |
| `UnifiedDiffProofs.StrayEditsIgnored` | scripts/apply_unified_diff.py:44-57 | edits behind a broken hunk header or behind the header of another file change neither output nor outcome |
| `UnifiedDiffProofs.NoiseIgnored` | scripts/apply_unified_diff.py:44-57 | a line that is no edit and no header may be dropped anywhere |
| `UnifiedDiffProofs.PatchedLength` | scripts/apply_unified_diff.py:42-91 | an accepted patch gives as many lines as the original plus the sum of (new count minus old count) |
| `UnifiedDiffProofs.MergeIsNewSide` | scripts/apply_unified_diff.py:61-80 | what a hunk emits is its new side, up to line terminators, wherever its old side stands |
| `UnifiedDiffProofs.RoundTrip` | scripts/apply_unified_diff.py:29-91 | for any division of an edit into hunks, the output lines for the old text (up to terminators) are those of the new text if and only if every hunk is placeable: it has an old line, stands at the top, or inserts copies of the line it is put above |
| `UnifiedDiffProofs.PrintThenRead` | scripts/apply_unified_diff.py:29-57 | printing hunks as a section and reading the section back gives the same hunks |
| `UnifiedDiffProofs.PrintedDiffAppliesExactlyWhen` | scripts/apply_unified_diff.py:29-91 | a printed diff is accepted on the old text and its output lines are those of the new text if and only if it is placeable |
| `UnifiedDiffProofs.AnchoredIsPlaceable` | scripts/apply_unified_diff.py:39-43 | hunks that name an old line, or stand at the top, are placeable whatever the text |
| `UnifiedDiffProofs.MisplacedInsertion` | scripts/apply_unified_diff.py:39 | the code takes one from a non-zero old start even when the hunk has no old lines: a concrete insertion below line 1 that lands above it |
| `UnifiedDiffProofs.Undo` | scripts/apply_unified_diff.py:35-91 | if a patch is accepted and its new starts are consistent, the section with both sides swapped is accepted on the result and restores the original up to terminators |
| `UnifiedDiffProofs.SwappedSectionUndoes` | scripts/apply_unified_diff.py:35-91 | the same for the section obtained by swapping add and delete markers and the header sides line by line |
| `UnifiedDiffProofs.SwappedPrintUndoesExactlyWhen` | scripts/apply_unified_diff.py:35-91 | the swapped print of a diff takes the new text back to the old one if and only if the inverse division is placeable |
| `UnifiedDiffProofs.PrintedDiffRoundTrips` | scripts/apply_unified_diff.py:29-91 | when every hunk names a line on both sides, the printed diff gives the new lines and its swapped form the old ones again |
| `UnifiedDiffText.ApplyToText` | scripts/apply_unified_diff.py:22-98 | splitting the file, interpreting the section and joining the output gives the written text as specified, or the refusal |
| `UnifiedDiffText.SplitOfJoinExactlyWhen` | scripts/apply_unified_diff.py:92 | lines that are joined and read again are the same if and only if each is non-empty, breaks at its end only, and is terminated unless it is the last |
| `UnifiedDiffText.WrittenExactlyWhen` | scripts/apply_unified_diff.py:82-92 | the written file has the output lines if and only if no line without terminator, be it the original's last or an added one, gets another line behind it; otherwise it has fewer |
| `UnifiedDiffText.FileRoundTrip` | scripts/apply_unified_diff.py:22-98 | applied to a file that reads as the old text up to terminators, a section writes a file that reads as the new one if and only if its hunks are placeable and that condition holds |
| `UnifiedDiffText.FileUndo` | scripts/apply_unified_diff.py:22-98 | after a written file that has the output lines, the swapped section is accepted on it and restores the original text up to terminators if and only if that condition holds on the way back |
| `UnifiedDiffText.LinesRunTogether` | scripts/apply_unified_diff.py:82-92 | a file without a final newline and a line added behind its last one: the two run into one line |
| `PatchSet.SelectSections` | scripts/apply_unified_diff.py:107-122 | splitting at the diff headers and filtering by prefix, as a function of the lines |
| `PatchSet.SelectedExactly` | scripts/apply_unified_diff.py:107-122 | the selected sections are, in order, those that begin where a line names a path with the prefix, each reaching to the next diff header or the end |
| `PatchSet.FileTree.ApplyPatch` | scripts/apply_unified_diff.py:101-125 | the new file tree and the outcome are those of applying the selected sections to the files' texts one after the other, each reading what the one before wrote, up to the first refusal |
| `PatchSet.UnnamedPathsKept` | scripts/apply_unified_diff.py:122-125 | paths that no selected section names keep their content, also when a section is refused |
| `PatchSet.NamedOnceIsPatched` | scripts/apply_unified_diff.py:122-125 | a path that one section names ends up with that section applied to its initial content, whatever the others did |
| `PatchSet.FailureKeepsPrefix` | scripts/apply_unified_diff.py:125 | a refusal leaves exactly the sections before the refused one applied |
| `ArtifactWriter.ActivationArtifactWriter.Reserve` | src/inkling_ampere/mechanistic/artifacts.py:379-392 | the consumed count grows by the reservation exactly when neither the in-flight limit nor the budget is exceeded |
| `ArtifactWriter.ActivationArtifactWriter.WriteChunk` | src/inkling_ampere/mechanistic/artifacts.py:418-438 | one chunk is reserved, compressed, written and recorded, or the state at the point of failure is the one stated |
| `ArtifactWriter.ActivationArtifactWriter.Rollback` | src/inkling_ampere/mechanistic/artifacts.py:442-451 | the tables, both counters, the id set and the files go back to what they were, an unrecorded chunk file apart |
| `ArtifactWriter.ActivationArtifactWriter.WriteTensor` | src/inkling_ampere/mechanistic/artifacts.py:394-451 | the new state and the outcome are those of the specification of the call: all chunks and the tensor record, or the state before |
| `ArtifactWriter.ActivationArtifactWriter.WriteStatistics` | src/inkling_ampere/mechanistic/artifacts.py:453-460 | a record is noted and its bytes counted, or the state is unchanged and the reason given |
| `ArtifactWriter.ActivationArtifactWriter.Finalize` | src/inkling_ampere/mechanistic/artifacts.py:462-542 | the barriers, emptiness and error rules, the digest-named publication, collision and duplicate handling, and a failing manifest write or move, as one function of state and store |
| `ArtifactWriter.ActivationArtifactWriter.Exit` | src/inkling_ampere/mechanistic/artifacts.py:363-373 | leaving the scope finalizes what was not finalized as partial, without barriers |
| `ArtifactWriter.StoppedIsWritten` | src/inkling_ampere/mechanistic/artifacts.py:411-451 | wherever the chunk loop stops, what is left after the rollback is the state before the call, with an interrupted chunk's file if there is one |
| `ArtifactReader.ReconstructTensor` | src/inkling_ampere/mechanistic/artifacts.py:560-647 | the loop over a tensor's chunk list returns what the reader's specification says, refusals included |
| `ArtifactReader.VerifyArtifact` | src/inkling_ampere/mechanistic/artifacts.py:659-799 | the verifier's loops compute state, tensor count, byte count and first failure as specified |
| `ArtifactReader.Totals` | src/inkling_ampere/mechanistic/artifacts.py:769-789 | the reconciliation of chunk references and both byte totals |
| `ArtifactSoundness.VerifiedIsSound` | src/inkling_ampere/mechanistic/artifacts.py:742-787 | a verification without failure means: chunk lists partition the chunk table, every tensor is gap-free from 0 with a valid descriptor of the manifest's rank, ids are unique, and both totals reconcile |
| `ArtifactSoundness.VerifiedExactlyWhen` | src/inkling_ampere/mechanistic/artifacts.py:659-799 | verification passes if and only if the artifact is sound, said without an order of checks: descriptors, partition, gap-free intact tensors, barriers, errors, visibility and totals; otherwise it reports corruption |
| `ArtifactSoundness.PlausibleExactlyWhen` | src/inkling_ampere/mechanistic/artifacts.py:109-143 | a descriptor is valid if and only if it has elements, a rank among others, no negative position, and a global shape that is larger only along the axis it names |
| `ArtifactSoundness.CompleteExactlyWhen` | src/inkling_ampere/mechanistic/artifacts.py:560-572 | the reader's default mode answers as the other one for complete artifacts and refuses all others |
| `ArtifactSoundness.ReconstructsExactlyWhen` | src/inkling_ampere/mechanistic/artifacts.py:560-647 | a tensor can be read if and only if the manifest has its name and its first record is a valid descriptor with a gap-free row of intact chunks |
| `ArtifactSoundness.AxesMultiply` | src/inkling_ampere/mechanistic/artifacts.py:146-150 | the byte count is the product of the axes times the width of the type; joined shapes multiply |
| `ArtifactSoundness.WidthOfTypes` | src/inkling_ampere/mechanistic/artifacts.py:29-44 | the byte counts of three elements, type by type |
| `ArtifactSoundness.EveryChunkRead` | src/inkling_ampere/mechanistic/artifacts.py:744-772 | every chunk of a verified artifact is present and passes its length and checksum tests |
| `ArtifactSoundness.TamperingIsFound` | src/inkling_ampere/mechanistic/artifacts.py:594-642 | with collision-free digests, replacing or removing any chunk file of a verified artifact makes verification fail |
| `ArtifactSoundness.SameNameSameTensors` | src/inkling_ampere/mechanistic/artifacts.py:517-533 | two verified directories of one digest give the same answer for every tensor |
| `ArtifactRuns.RunKeeps` | src/inkling_ampere/mechanistic/artifacts.py:394-460 | after any sequence of successful, refused and interrupted calls: every accepted tensor has its chunks in the table and on disk, ids are unique, consumed bytes are payloads plus statistics and within the budget, stored bytes are the chunks' sum |
| `ArtifactRuns.AcceptedExactlyWhen` | src/inkling_ampere/mechanistic/artifacts.py:394-441 | a tensor is accepted if and only if it is this writer's, of the stated size, private, new and within the budget as a whole, no chunk number it needs is taken, and nothing goes wrong on disk |
| `ArtifactRuns.NotedExactlyWhen` | src/inkling_ampere/mechanistic/artifacts.py:453-460 | a statistics record is accepted if and only if it is fit to be seen and within both limits |
| `ArtifactRuns.FailureRestores` | src/inkling_ampere/mechanistic/artifacts.py:442-451 | a failed call restores the whole ledger, files included, if and only if no admitted, fitting chunk of it is interrupted behind chunks that all went well |
| `ArtifactRuns.InterruptedExactlyWhen` | src/inkling_ampere/mechanistic/artifacts.py:379-438 | a call ends with an interrupted write if and only if it is admitted and, for some chunk, the chunks before it fit and go well, its own bytes are within both limits, its number is free and it is interrupted after its file is written |
| `ArtifactRuns.OrphanBlocksRetry` | src/inkling_ampere/mechanistic/artifacts.py:423-451 | a one-byte tensor interrupted in its only chunk leaves that chunk's file behind, and the same tensor is refused for it when it is written again without any fault |
| `ArtifactRuns.OrphanBlocksForever` | src/inkling_ampere/mechanistic/artifacts.py:423-451 | after a call is interrupted in its chunk number p, no run ever records more than p chunks, and every later tensor that would need more is refused |
| `ArtifactRuns.CleanExactlyWhen` | src/inkling_ampere/mechanistic/artifacts.py:423-446 | after any run the staging directory holds exactly the recorded chunks if and only if no call of the run has such a chunk |
| `ArtifactRuns.KeptTensorReconstructs` | src/inkling_ampere/mechanistic/artifacts.py:594-647 | round trip: the reader returns exactly the bytes the writer accepted, for every chunk size and length and any other calls in between |
| `ArtifactRuns.KeptVerifies` | src/inkling_ampere/mechanistic/artifacts.py:659-799 | a manifest made from a kept ledger verifies, with the requested state, every tensor and every byte |
| `ArtifactRuns.FinalizedRunReadsBack` | src/inkling_ampere/mechanistic/artifacts.py:394-542 | every run that ends in a successful finalization has an artifact under the returned digest that verifies as requested, describes the run, and reads every payload back, in the default mode if and only if its state is complete; the rest of the store is untouched |
| `ArtifactRuns.FinalizesExactlyWhen` | src/inkling_ampere/mechanistic/artifacts.py:462-542 | after any run, an unstaged writer's finalization succeeds if and only if nothing goes wrong on disk, the artifact it would publish verifies, and so does what already stands under its digest |
| `ArtifactRuns.Perform` | src/inkling_ampere/mechanistic/artifacts.py:394-460 | the class, driven through any sequence of calls, is in the state that the run says |
| `ArtifactRuns.FirstStagingDecides` | src/inkling_ampere/mechanistic/artifacts.py:462-542 | over any number of finalizations, with any writes in between, only the first that gets its manifest written can publish: the writer is finalized, and the store changed, if and only if that one meets no obstacle, and every other one fails |
| `ArtifactRuns.ScopePublishesExactlyWhen` | src/inkling_ampere/mechanistic/artifacts.py:363-373 | a scope that is left has published if and only if its first staged manifest, be it that of the exit, met no obstacle; it has published that artifact and no other |
| `ArtifactRuns.LeaveScope` | src/inkling_ampere/mechanistic/artifacts.py:363-373 | the class, driven through any finalizations and the exit, leaves writer and store as said there |
| `RankSet.AlignmentKeys` | src/inkling_ampere/mechanistic/artifacts.py:903-985 | the counter loops compute the alignment multiset, or fail exactly when a statistics record lacks its keys |
| `RankSet.TensorOrderIrrelevant` | src/inkling_ampere/mechanistic/artifacts.py:903-946 | reordering a manifest's tensors leaves its alignment as it is |
| `RankSet.SameKeyExactlyWhen` | src/inkling_ampere/mechanistic/artifacts.py:903-946 | two tensors count as one if and only if both are runtime metadata, or neither is and they differ in id, rank and rank count only, a missing boundary being the module's value |
| `RankSet.RecordKeyExactlyWhen` | src/inkling_ampere/mechanistic/artifacts.py:947-985 | the same for statistics records, none of which counts as a tensor |
| `RankSet.OneMoreTensor` | src/inkling_ampere/mechanistic/artifacts.py:903-946 | one more tensor breaks an agreement if and only if it is not runtime metadata |
| `RankSet.OneMoreRecord` | src/inkling_ampere/mechanistic/artifacts.py:947-985 | one more statistics record keeps an agreement if and only if it has its keys and is runtime metadata |
| `RankSet.SortedExactlyWhen` | src/inkling_ampere/mechanistic/artifacts.py:809-814 | sorted ranks are 0, 1, 2 and so on if and only if there is exactly one reference per rank |
| `RankSet.CheckReferences` | src/inkling_ampere/mechanistic/artifacts.py:813-840 | the first pass accepts exactly the references that are genuine: complete, named by their digest, matching their manifest, barriers acknowledged, verified |
| `RankSet.CheckAgreement` | src/inkling_ampere/mechanistic/artifacts.py:841-867 | the second pass accepts exactly the manifests that agree with the first on run, profile, barrier and alignment |
| `RankSet.GenuineExactlyWhen` | src/inkling_ampere/mechanistic/artifacts.py:813-840 | a reference is genuine if and only if it is made of its digest and rank alone and stands for a sound, complete artifact of that rank and rank count |
| `RankSet.AggregateSpeaksForAll` | src/inkling_ampere/mechanistic/artifacts.py:841-882 | run, profile, barrier, rank count and counted events of an aggregate are those of every one of its artifacts |
| `RankSet.AgreementIsEquivalence` | src/inkling_ampere/mechanistic/artifacts.py:841-867 | agreement is an equivalence among manifests whose statistics carry their keys |
| `RankSet.Assemble` | src/inkling_ampere/mechanistic/artifacts.py:809-882 | assembly succeeds if and only if the references are one genuine artifact per rank with every pair agreeing, and lists them in rank order |
| `RankSet.AggregateIgnoresOrder` | src/inkling_ampere/mechanistic/artifacts.py:809-882 | permuting the references changes neither acceptance nor the ordered list the aggregate is made of |
| `RankSet.AgreementIgnoresTensorOrder` | src/inkling_ampere/mechanistic/artifacts.py:865-867 | reordering one manifest's tensors does not change which manifests it agrees with |
| `RankSet.RankSetStore.AssembleRankSet` | src/inkling_ampere/mechanistic/artifacts.py:883-900 | the aggregate is stored under its digest, an equal one is accepted again, a different one there refuses the set, and a failed manifest write leaves a directory that blocks the address |
| `Upload.Uploader.UploadFile` | src/inkling_ampere/instrumentation/gcs.py:296-388 | one upload attempt of the client, its state file and the server, is what the attempt of the protocol specification says under the given script of failures |
| `Upload.Uploader.PutAll` | src/inkling_ampere/instrumentation/gcs.py:357-388 | the chunk loop: the handle runs on while the offset follows the server, and the position to go strictly decreases |
| `UploadProofs.RunSafe` | src/inkling_ampere/instrumentation/gcs.py:296-388 | over all runs of attempts, crashes and restarts with whole-chunk acknowledgements, every session holds a prefix of the file, and whichever attempt returns, the remote object is the file |
| `UploadDrift.PrefixesExactlyWhen` | src/inkling_ampere/instrumentation/gcs.py:296-388 | for any crashes and answers: all sessions of the run hold a prefix of the file, for every file of the size, if and only if no PUT sent while the file handle is ahead of the server commits a byte |
| `UploadDrift.ObjectExactlyWhen` | src/inkling_ampere/instrumentation/gcs.py:296-388 | for any crashes and answers: the remote object, if the run stores one, is the file, for every file of the size, if and only if no PUT sent while the file handle is ahead of the server commits a byte in the session that becomes the object |
| `UploadDrift.DriftGivenUp` | src/inkling_ampere/instrumentation/gcs.py:333-388 | the attempt that corrupts a session does no harm when that session has expired before the next attempt: the object is the file |
| `UploadDrift.RunPrefixed` | src/inkling_ampere/instrumentation/gcs.py:296-388 | a session in which no such PUT is sent holds a prefix of the file after any run, whatever happens in others |
| `UploadDrift.UndriftedIsFaithful` | src/inkling_ampere/instrumentation/gcs.py:296-388 | without such a PUT every session holds a prefix of the file after any run, and the remote object, if there is one, is the file |
| `UploadDrift.WholeChunksNeverDrift` | src/inkling_ampere/instrumentation/gcs.py:357-372 | a server that acknowledges whole chunks never lets such a PUT happen |
| `UploadDrift.AttemptShaped` | src/inkling_ampere/instrumentation/gcs.py:296-388 | which PUTs an attempt sends, and how long sessions get, depends on sizes and answers only, not on the file's content |
| `UploadDrift.PutKeepsPrefixExactlyWhen` | src/inkling_ampere/instrumentation/gcs.py:359-365 | one PUT keeps the committed bytes a prefix, for every file of the size, if and only if the handle stands where the server does or nothing is taken |
| `UploadProofs.AttemptSafe` | src/inkling_ampere/instrumentation/gcs.py:296-388 | from a faithful world, an attempt that returns has stored the file, however the server acknowledged |
| `UploadProofs.ReturnedIsStored` | src/inkling_ampere/instrumentation/gcs.py:175-185 | from any world: what an attempt returns is the remote object there is, of the file's size and claimed digest |
| `UploadProofs.TrueClaimIsFile` | src/inkling_ampere/instrumentation/gcs.py:175-185 | with collision-free digests, a returned object whose claimed digest is true is the file |
| `UploadProofs.PresentObjectDecides` | src/inkling_ampere/instrumentation/gcs.py:309-315 | an object that is there already is never replaced: every attempt of every run that learns of it returns it if size and claimed digest are the file's, and raises otherwise |
| `UploadProofs.AheadNeverReturns` | src/inkling_ampere/instrumentation/gcs.py:357-372 | an attempt whose file handle is ahead of the server ends in an error, however the server goes on |
| `UploadProofs.ShortAcknowledgementCorrupts` | src/inkling_ampere/instrumentation/gcs.py:357-388 | without re-seeking, one short acknowledgement and a retry store, and return as verified, content that is the file only if the file repeats itself there |
| `UploadProofs.FaultlessReturnsExactlyWhen` | src/inkling_ampere/instrumentation/gcs.py:296-388 | after any safe history a faultless attempt returns if and only if the file is not empty or already stored, or the position query completes its empty session |
| `UploadProofs.EmptyFileUploadsExactlyWhen` | src/inkling_ampere/instrumentation/gcs.py:244-353 | over any run, an empty file is stored if and only if the position query of some attempt completes the session an earlier attempt opened; until then every attempt fails |
| `UploadProofs.StoredOffsetIgnored` | src/inkling_ampere/instrumentation/gcs.py:322-347 | the offset in the state file has no influence on outcome, sessions or object |
| `Download.Client.DownloadObject` | src/inkling_ampere/instrumentation/gcs.py:390-448 | the storage client's download is an attempt of the specification, whatever the chunk size of its reads |
| `Download.Client.DownloadOnce` | scripts/download_checkpoint.py:92-137 | the checkpoint client's download is an attempt of the same specification, its shortcut for a full partial file included |
| `Download.Client.DownloadWithRetries` | scripts/download_checkpoint.py:140-174 | between one and retries + 1 attempts; all before the last failed with an error that is caught; the last one's outcome is passed on; failure only after all attempts or with an error that is not caught |
| `DownloadProofs.TargetSafe` | src/inkling_ampere/instrumentation/gcs.py:412-446 | whatever any server sends over any number of attempts: an existing target is untouched, and a new one matches the pinned size and digest |
| `DownloadProofs.DoneMeansPinned` | src/inkling_ampere/instrumentation/gcs.py:412-448 | an attempt succeeds only with content of the pinned size and digest at the target |
| `DownloadProofs.PresentTargetDecides` | src/inkling_ampere/instrumentation/gcs.py:399-411 | a target that is there already is never touched, and every attempt of every run succeeds if and only if it has the pinned size and digest |
| `DownloadProofs.FinishedRepeats` | src/inkling_ampere/instrumentation/gcs.py:399-411 | a finished download can be repeated any number of times |
| `DownloadProofs.BrokenDeliversNothing` | src/inkling_ampere/instrumentation/gcs.py:419-446 | a request that does not open, a transfer that breaks off or a crash before the rename delivers nothing |
| `DownloadProofs.UncaughtExactlyWhen` | scripts/download_checkpoint.py:140-174 | an attempt ends the retry loop for good if and only if its transfer breaks off with an error that is not caught |
| `DownloadProofs.RunKeepsPrefix` | src/inkling_ampere/instrumentation/gcs.py:419-438 | against an immutable source, ranges honoured or not, the partial file is a prefix of the source after any run, wherever attempts are cut off |
| `DownloadProofs.TargetIsSource` | scripts/download_checkpoint.py:103-137 | pinned to the source's own size and digest, what arrives at the target is the source |
| `DownloadProofs.CompleteReplyFinishes` | src/inkling_ampere/instrumentation/gcs.py:422-448 | from any prefix, one complete reply finishes the download; an empty source needs a partial file to be there |
| `DownloadProofs.StuckForever` | scripts/download_checkpoint.py:107-115 | a full-size or oversized partial file of the wrong content fails every later attempt and never changes |
| `DownloadProofs.RecoverableExactlyWhen` | scripts/download_checkpoint.py:107-137 | some reply completes the download if and only if the partial file is not stuck in that way and, for an empty source, there is one |
| `DownloadProofs.EmptyNeverDownloads` | scripts/download_checkpoint.py:107-137 | an empty file is never downloaded from scratch: every attempt of every run fails for want of a partial file |
| `Attention.FillCache` | scripts/gpu/flex_attention_vllm_integration_probe.py:173-178 | the fill loop leaves every position's entry in its slot, so no live slot is overwritten, and every other slot as it was |
| `Attention.InvertTable` | scripts/gpu/flex_relative_attention_probe.py:126-132 | the inverse table maps each used block back to its index and every other one to -1 |
| `Attention.SlotsDistinct` | scripts/gpu/flex_relative_attention_probe.py:118-124 | two positions never share a physical slot, for any block size and any injective block table |
| `AttentionProofs.LogicalOfSlot` | scripts/gpu/flex_relative_attention_probe.py:142-145 | the mask's index arithmetic finds the position of a live slot |
| `AttentionProofs.StaleSlot` | scripts/gpu/flex_relative_attention_probe.py:142-156 | a slot that is no position's is masked: its block is free or it lies past the sequence |
| `AttentionProofs.PagedIsDense` | scripts/gpu/flex_relative_attention_probe.py:30-178 | for any block size, injective table, sequence that fits, window or none, and any content of stale slots: attention over physical slots with mask and bias equals dense attention over positions |
| `AttentionProofs.OutputExactlyWhen` | scripts/gpu/flex_relative_attention_probe.py:71-76 | a query's output is a number if and only if the window, if there is one, is positive |
| `Softmax.AverageExactlyWhen` | scripts/gpu/flex_relative_attention_probe.py:75-76 | an output is r if and only if the weighted deviations of the values from r add up to 0 |
| `Softmax.OutputBetween` | scripts/gpu/flex_relative_attention_probe.py:71-76 | an output lies between any bounds of the values its query sees |
| `Softmax.WeighsExactlyWhen` | scripts/gpu/flex_relative_attention_probe.py:71-75 | a position has weight if and only if it is at or before the query's own and within the window |
| `Softmax.UnseenIrrelevant` | scripts/gpu/flex_relative_attention_probe.py:71-76 | keys and values at positions a query does not see have no influence on its output |
| `Softmax.ExpUpToFactor` | scripts/gpu/flex_relative_attention_probe.py:75 | multiplying the exponential by a positive factor, as subtracting the largest score does, leaves every output as it is |
| `Softmax.ScoreAlong` | scripts/gpu/flex_relative_attention_probe.py:42 | raising a coordinate of a key raises its score by as much of the query's coordinate, scaled |
| `Softmax.ScoreOfZero` | scripts/gpu/flex_relative_attention_probe.py:55-69 | a key of zeros scores the learned bias of its distance, and nothing at or beyond the extent |
| `SampledAttention.SampledIsFull` | scripts/gpu/tp4_attention_diagnostics.py:12-49 | reading only the positions from max(0, min - window) to max, where the pages are live, gives the rows of the full-length windowed attention for every sampled query |
| `SampledAttention.SampledExactlyWhen` | scripts/gpu/tp4_attention_diagnostics.py:16-25 | the sampled reference gives rows if and only if there is a query, all are in range and every page in reach is live; evicted pages are never looked at |
| `SampledAttention.RefusedExactlyWhen` | scripts/gpu/tp4_attention_diagnostics.py:16-25 | which refusal it is: no query, one out of range, a block row too short for the reach, or a page that is not live |
| `SampledAttention.EndsAreSeen` | scripts/gpu/tp4_attention_diagnostics.py:18-20 | nothing is read in vain at either end: some sampled query sees the first position read, some the last |
| `SampledAttention.LiveExactlyWhen` | scripts/gpu/tp4_attention_diagnostics.py:20-22 | pages are live if and only if the block row names them and they are among the cache's |
| `SampledAttention.OutOfReach` | scripts/gpu/compare_tiny_inkling_attention.py:117-144 | positions outside that range have no weight in the full-length reference |
| `SampledAttention.CheckBatch` | scripts/gpu/compare_tiny_inkling_attention.py:106-148 | over a ragged batch, empty requests skipped, every output row is compared with the full-length attention of its own request, computed from the joined queries and biases at its offset and its own pages; none of these is not a number, and the result is the largest gap |
| `SampledAttention.ReferenceAt` | scripts/gpu/compare_tiny_inkling_attention.py:106-139 | row i of request r among the joined reference rows is dense attention of that request's query i, its bias row, its length and its pages |
| `ExpertShards.UnitOfShard` | scripts/gpu/w8a16_inkling_moe_layer_probe.py:167-177 | a rank's activated unit is the whole expert's at the rank's offset, for the split and the interleaved gate/up layout |
| `ExpertShards.UnitAlong` | scripts/gpu/w8a16_inkling_moe_layer_probe.py:167-177 | raising a coordinate of the up row raises the unit by as much of the input, times the activated gate, for both layouts |
| `ExpertShards.NoUpNoUnit` | scripts/gpu/w8a16_inkling_moe_layer_probe.py:167-177 | an up row of zeros gives nothing, whatever the gate |
| `ExpertShards.ReducedIsPrefix` | scripts/gpu/w8a16_tp4_moe_probe.py:128-144 | summed over the first n ranks, the shards give the part of the projection that their columns make up, for any world size |
| `ExpertShards.ShardsSumToWhole` | scripts/gpu/w8a16_tp4_moe_probe.py:128-144 | summed over all ranks, the shards give the whole gated expert when the world size divides the width |
| `ExpertShards.ShardedLayerIsWhole` | scripts/gpu/w8a16_tp4_moe_probe.py:128-176 | the reduced routed layer equals the unsharded layer, exactly over the reals, for both layouts |
| `ExpertShards.SharedIsRouted` | scripts/gpu/w8a16_inkling_moe_layer_probe.py:158-177 | the shared-expert double sum, weight inside the activation, is the routed layer that takes every expert |
| `ExpertShards.SharedShardsSumToWhole` | scripts/gpu/w8a16_inkling_moe_layer_probe.py:158-177 | summed over the ranks, the shards of the shared experts give the whole shared output when the world size divides the width |
| `ExpertShards.Reference` | scripts/gpu/w8a16_tp4_moe_probe.py:50-68 | the token and route loops accumulate, in every cell, the weighted sum of the routed experts' outputs |
| `ShardedWeights.CutReadsBack` | scripts/gpu/w8a16_tp4_moe_probe.py:31-47 | cutting a row along group boundaries does not change what its groups read back |
| `ShardedWeights.QuantizedShard` | scripts/gpu/w8a16_tp4_moe_probe.py:128-144 | quantizing a rank's shard is cutting the quantized expert, when the hidden and the local width are whole groups |
| `ShardedWeights.QuantizedLayerIsWhole` | scripts/gpu/w8a16_tp4_moe_probe.py:128-200 | ranks that quantize their own shards reduce to the layer over the quantized whole weights |
| `ShardedWeights.Gather` | scripts/gpu/w8a16_tp4_moe_probe.py:177-192 | whatever the empty arrays held, the gather loop rebuilds every row of the merged gate/up weights and every cell of the down weights |
| `Quantizer.Bf16Close` | scripts/gpu/w8a16_tp4_moe_probe.py:38 | rounding to BF16 moves a value by at most half a spacing, hence by at most one part in 256 |
| `Quantizer.Bf16Monotone` | scripts/gpu/w8a16_tp4_moe_probe.py:38 | rounding to BF16 keeps the order |
| `Quantizer.Bf16Fixed` | scripts/gpu/w8a16_tp4_moe_probe.py:38 | a BF16 value rounds to itself |
| `Quantizer.Covered` | scripts/gpu/w8a16_tp4_moe_probe.py:36-39 | every weight over its group's scale is at most 127 * 256 / 255 in magnitude |
| `Quantizer.QuantizerBound` | scripts/gpu/w8a16_tp4_moe_probe.py:34-47 | the clamp never changes a code, the read-back error is at most half a scale, and the stored byte lies in 1 to 255 and gives the code back |
| `Quantizer.PeakUsesRange` | scripts/gpu/w8a16_tp4_moe_probe.py:37-40 | unless the scale was raised to its floor, the largest weight of a group gets the code 127 or -127 |
| `Quantizer.ScaleIsStable` | scripts/gpu/w8a16_inkling_moe_layer_probe.py:68-72 | what is read back has the same scale as the original group |
| `Quantizer.RequantizingIsIdle` | scripts/gpu/w8a16_inkling_moe_layer_probe.py:68-72 | quantizing what was read back gives the same weights again |
| `Inventory.ParseHeader` | src/inkling_ampere/checkpoint/inventory.py:309-378 | a header is accepted if and only if every entry is sound and the ranges are pairwise apart, and gives a record per entry |
| `Inventory.SoundExactlyWhen` | src/inkling_ampere/checkpoint/inventory.py:318-352 | an entry is sound if and only if its type is supported, no axis or offset is negative, and its bytes are as many as its elements need |
| `Inventory.RecordSays` | src/inkling_ampere/checkpoint/inventory.py:353-369 | the record of a sound entry has its name, shard, range and placement; its bytes are its parameters times the type's width |
| `Inventory.ProductJoins` | src/inkling_ampere/checkpoint/inventory.py:343 | the element count of joined shapes is the product of theirs; an axis counts its length and a scalar is one element |
| `Inventory.AcceptableExactlyWhen` | src/inkling_ampere/checkpoint/inventory.py:371-377 | ranges are pairwise apart if and only if no two tensors share a byte and no empty one lies strictly inside another |
| `Inventory.EmptyTensorRefused` | src/inkling_ampere/checkpoint/inventory.py:371-377 | an empty tensor placed strictly inside another's bytes shares none of them and is refused |
| `Inventory.FindOverlap` | src/inkling_ampere/checkpoint/inventory.py:372-377 | sorting and comparing neighbours reports an overlap if and only if some pair of ranges overlaps |
| `Ranges.SortSorts` | src/inkling_ampere/checkpoint/inventory.py:372 | sorting permutes the ranges into order and changes nothing about which of them overlap |
| `Ranges.NeighboursSuffice` | src/inkling_ampere/checkpoint/inventory.py:372-377 | among ordered ranges, the check of neighbours passes if and only if all pairs are apart |
| `Inventory.AcceptedFitsSpan` | src/inkling_ampere/checkpoint/inventory.py:353-378 | the tensors of an accepted header take no more bytes than any span they lie in |
| `Inventory.InventoryFromIndex` | src/inkling_ampere/checkpoint/inventory.py:476-517 | an index is accepted if and only if every shard's header is accepted and holds exactly the tensors assigned to it, and a stated total is right; the records then match the index one to one |
| `Inventory.ReadShards` | src/inkling_ampere/checkpoint/inventory.py:490-495 | the nested loops gather all records, or stop at the first header not accepted or name seen twice |
| `Inventory.MatchesExactlyWhen` | src/inkling_ampere/checkpoint/inventory.py:497-507 | the code's name and shard comparisons hold if and only if every shard holds exactly the tensors the index assigns to it |
| `Modules.AggregateModules` | src/inkling_ampere/checkpoint/inventory.py:520-545 | one row per key that occurs, each summarizing exactly its own records: their number, parameters, bytes, and the any and all flags |
| `Modules.TotalsConserved` | src/inkling_ampere/checkpoint/inventory.py:527-545 | the rows of such a table, in whatever order, add up to the number of tensors, the parameters and the bytes of all records |
| `Modules.OverKeysIsSum` | src/inkling_ampere/checkpoint/inventory.py:522-524 | grouping by key neither loses nor repeats a record, for any measure |
| `Controller.Run.Execute` | scripts/gcp/run_multimodal_ephemeral_validation.py:822-1158 | wherever calls raise or a signal arrives: all five cleanup stages are tried in order; exit 0 or 2 means edge, deployment, model and job are gone; exit 0 means both validations passed; job and deployed model never coexist; a cleanup without faults exits 0 or 2 if and only if it is not stranded, and else leaves only the job; a run without faults or signals exits 0 |
| `Controller.Run.CancelAndDeleteJob` | scripts/gcp/run_multimodal_ephemeral_validation.py:404-441 | on return the job is absent and nothing else was touched; without faults it returns unless the job was running and the wait for its end is cut short by a signal |
| `Controller.Run.PollJob` | scripts/gcp/run_multimodal_ephemeral_validation.py:378-401 | without faults the loop returns a job that ended, if and only if no read finds the job still running after a signal |
| `Controller.TerminatedRunLeavesJob` | scripts/gcp/run_multimodal_ephemeral_validation.py:397-441 | a signal while the native job runs, no fault anywhere, and a job that ends late: the teardown gives up waiting, never deletes the job, and exits 3 |
| `Controller.Run.NativeGate` | scripts/gcp/run_multimodal_ephemeral_validation.py:844-907 | the native phase ends with the job deleted before serving begins, or raises, leaving only the job behind |
| `Controller.Run.DropJob` | scripts/gcp/run_multimodal_ephemeral_validation.py:895-907 | the native phase ends with the job deleted and, if a signal has arrived, in an error |
| `Controller.Run.Serve` | scripts/gcp/run_multimodal_ephemeral_validation.py:909-1036 | the serving phase starts only without a job and marks the run passed only after validation |
| `Controller.Run.UploadModel` | scripts/gcp/run_multimodal_ephemeral_validation.py:918-947 | the upload is on record before it is sent; it succeeds if and only if no call raises, the operation ends well and no signal has arrived |
| `Controller.Run.Deploy` | scripts/gcp/run_multimodal_ephemeral_validation.py:918-978 | a model is deployed only after a good upload and before any signal, each operation waited for |
| `Controller.Run.RunValidator` | scripts/gcp/run_multimodal_ephemeral_validation.py:997-1026 | the validation passes if and only if the validator exits with 0 unkilled, its report passes and the attestation is made |
| `Controller.Run.CleanUp` | scripts/gcp/run_multimodal_ephemeral_validation.py:1045-1131 | every stage is tried whatever the ones before it did; only removals happen; a clean result means everything is gone; without faults it is clean if and only if not stranded: the job is running at its first read, and a later read finds it running after a signal |
| `Calibration.PromptIsAffine` | src/inkling_ampere/evaluation/long_context.py:167-192 | the four filler segments add up to the repetitions, so the prompt's length is affine in them |
| `Calibration.NeedlesSpread` | src/inkling_ampere/evaluation/long_context.py:179-182 | the first needle lies behind a twentieth of the filler, the other two behind nine twentieths more each |
| `Calibration.NextProbe` | src/inkling_ampere/evaluation/long_context.py:195-213 | the next probe is defined for sensible numbers only, stays put when the target was met, and else moves towards it, to the nearest number the estimate gives or by one |
| `Calibration.FirstProbeIsBest` | scripts/gpu/long_context_responses_probe.py:285-296 | when every repetition costs the same tokens, no number of repetitions comes closer to the target than the first probe |
| `Calibration.Search` | scripts/gpu/long_context_responses_probe.py:297-318 | at most ten probes, none twice, each the adjustment of the one before, up to the first within the tolerance or one made before; the best is minimal among them |
| `Calibration.Calibrate` | scripts/gpu/long_context_responses_probe.py:285-332 | a return is within the tolerance and minimal among the probes; with affine counts it succeeds if and only if some number of repetitions reaches the target, and then at the first probe; it does so whenever the target is at least the baseline and the tolerance at least half the slope; the reported repetitions are the returned ones whenever no other number of repetitions shares the count of 0 or of 32 |
| `Calibration.ReportedExactlyWhen` | scripts/gpu/long_context_responses_probe.py:326-328 | the reported number of repetitions is that of the returned prompt if and only if neither baseline observation, at 0 and at 32 repetitions, has the returned prompt's token count without being it |
| `Calibration.ReportedElsewhere` | scripts/gpu/long_context_responses_probe.py:326-328 | on a plateau of the tokenizer, calibration returns the prompt of 31 repetitions and reports 32 |

## Left out

- JSON: parsing, typing of fields and canonical encoding are not modelled; values arrive typed, and the encoding is a function.
- Path strings: the safety checks on relative paths, symbolic links and the digit padding of chunk file names.
- HTTP, `gcloud`, subprocesses, tokens, clocks, logging, metrics and argument parsing; remote services are scripts of choices.
- zlib, SHA-256 and the file system beyond exclusive create, rename, unlink and whole-file replacement.
- Decoding of texts and the regular expressions of the diff applier: carriage returns are translated already, and section lines are a datatype.
- `_download_sha256`: which of the metadata digests is pinned; the pin is a parameter.
- ArtifactWriter.ActivationArtifactWriter.Rollback: an `unlink` that raises inside the rollback, which leaves chunk records, counters and the id in place, is not modelled.
- ArtifactRuns.FailureRestores: assumes, as all runs do, that the rollback's `unlink` calls do not raise.
- ArtifactWriter.ActivationArtifactWriter.Finalize: dropping the staging directory of a duplicate either happens or does not; a directory removed in part is not modelled.
- Rival uploaders of the same object, and a server that changes an object while it is downloaded.
- RankSet.Assemble: says when assembly is refused, not which of the refusals is reported first.
- Inventory.InventoryFromIndex: the sorted order of the records and the wording of refusals; the `__metadata__` entry of a header and the name-based classification are not modelled.
- Modules.AggregateModules: the order of the rows and the joined list of sharding axes.
- Attention.PagedWeights: one head at a time; query head h uses the keys of head h divided by the repeat factor in both forms.
- Floating-point accumulation order, BF16 rounding of activations, and BF16 overflow and subnormals; scales are at least 1e-8 and those of BF16 weights cannot overflow.
- Marlin packing into 32-bit words: library code that is not part of this model.
- Controller.Run.Execute: a job that never ends, effects that land after the controller has read the resource as absent, other users of the temporary names, and the log collection after cleanup.
- Calibration.Calibrate: token counts are a function of the repetitions; an endpoint that answers the same prompt differently is not modelled.
- Report and manifest schema validators, release attestation field checks, serving profiles, the converter, media admission and the sharding simulator: each is settled by reading one branch, or is not part of this model.
