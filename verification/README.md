# Filmate: a verified model of its planning, syncing and scheduling core

This Dafny project models the parts of the Filmate backend whose behaviour is hardest to see by
reading them, and proves what they are relied on for. The largest part is the episode planner: a
language model proposes where to cut source texts into episodes, the code turns its anchors into
offsets, commits contiguous ranges to a ledger while other planners and re-planners are at work,
writes derived files, and can rebuild the ledger from the files alone. Around it stand the profile
sync, the rate limiter, the generation worker with its slots and its cancel protocol, the locks
around project and script files, and five smaller algorithms.

`dafny verify dfyconfig.toml` checks everything.

## How it is laid out

| modules | what they model |
|---|---|
| Options, SourceText, AnchorResolution | optional values; normalised text, folding, the three-tier anchor search, boundary resolution |
| EpisodeLedger, BackfillProperties, BackfillSearch | backfill: ordering, searching, cursors; what it does to every entry; idempotence; where it anchors, from the ledger and the sources alone |
| EpisodePlanner, PlannerService, PlannerOutcome, ReplanOutcome | plan and replan as functions of a snapshot and of the project at commit; the same as methods of a class that updates the project in place, proved equal; what a model answer becomes in the ledger |
| Tiling, PlannerInvariant, Replanning, ReplanConservation, AnyLedger, PlannerRuns | tilings and partitions of source texts; what plan and replan keep; conservation of text; ledgers of any kind; all interleavings |
| LedgerRoundTrip | splitting into files and recovering the ledger from them |
| ProfileSync | the fifteen-row decision table, whole runs, and the sync as it runs |
| RateLimiter | the sliding window over a ghost history of all grants |
| TaskLifecycle, ResumeBatch | the cancel and finish race; resumed batches |
| SlotTable, SlotPasses, SlotRuns | slots and the claim loop; what a whole pass serves; both interleaved with reloads and resumed jobs |
| ProjectLocks | threads under script and project locks |
| BraceScanner, AspectSize, ScriptEditor, Decimals, CompressionDescent, VersionHistory | the smaller algorithms |

Code that updates state step by step is modelled by methods and classes with the same fields, each
proved against a function whose properties the lemmas state; protocols are state machines over their
steps, in which every sequence of steps is a run.

## What turned out not to hold as described

- Re-plan keeps the next planning start exactly if the highest episode number occurs once or the
  cursor is ahead anyway; with a duplicated highest number the first of the duplicates decides, and a
  re-plan can change which one that is (`ReplanKeepsNextStart`, `DuplicateMovesStart`).
- Recovering a ledger from its files needs more than non-empty files: an all-whitespace episode that
  opens a source is searched for in the blank tails of earlier sources first. `SplitRecover` gives the
  exact condition, which episodes with any visible character always meet, and `BlankOpenerIsLost` a
  ledger that does not.
- A request gap longer than the 60-second window is not honoured, because pruning forgets the last
  request (`GapHonouredIff`). A window can hold more than a grant's limit, exactly when a larger limit
  without a gap can be in force at the same instant (`WindowsKeptIff`, `SameInstantExceeds`).
- The comment on decision row 10 (lib/profile_manifest.py:619-623) says the path is handled as
  user-only in the next round; while the profile still has the file it is handled as a collision, which
  re-records it when the contents agree. That is why a third sync may be needed (`SecondSyncQuietIff`,
  `RestoredWritesTwice`).
- A built-in file dropped upstream is removed under a tombstone (row 7), so if the profile brings it
  back it counts as deleted by the user and is not delivered again (`UneditedFollowsIff`,
  `BroughtBackStaysAway`).
- The claim loop ignores the row count of its own failing and re-queuing updates, so a cancel request
  between claim and update leaves the row in `cancelling` with nobody to finish it until orphans are
  scanned (`StrandedIff`, `CancelStrands`, `StrandedUntilScan`).
- The docstring at lib/generation_queue.py:196 names a narrower guard for cancelling than the
  repository has; the model follows the repository (queued, cancelling or running).
- A job without a stored provider whose real provider is full ends the claim loop of its lane, so jobs
  behind it wait even if their providers have room (`StopHidesRoom`). `ServesAllIff` says for which queues
  that cannot happen.
- `sync_episode_from_script` reads the script before it takes the project lock, so where it is called
  without the script's lock (server/services/project_events.py:596) it can bind an episode the script no
  longer has (`LateSyncIff`, `SyncMayBeStale`).
- One unpaired quotation mark in prose before a JSON object hides the object from the recovery scanner
  (`QuotesDecide`, `StrayQuoteHides`).
- Restoring a version into the file of another saved version would lose that one's bytes; nothing in
  `restore_version` prevents it, though no caller does so (`RestoreLosesIff`,
  `RestoreOverVersion`).

## Model

| member | source | states |
|---|---|---|
| `PlannerRuns.EveryRunTiles` | lib/episode_planner.py:557-880 | Main theorem on interleaved planners. From a fresh project, after any sequence of plan and replan snapshots, commits and status changes by other writers, with any model answers: numbers are 1..n, ranges tile the sources in file order leaving only whitespace behind, the cursor is their end, files are their texts, no character is in two episodes; once a plan call has reported exhaustion every non-whitespace character is in exactly one episode, and stays so |
| `PlannerRuns.StepKeeps` | lib/episode_planner.py:615-658 | Every step of any such run keeps the whole invariant, including that jobs in flight still fit and that an exhaustion report stays true |
| `PlannerRuns.ConflictIffMoved` | lib/episode_planner.py:615-619 | On a consistent project a plan commit reports a conflict exactly when planning would now resume elsewhere than where the call was planned from |
| `PlannerRuns.NoPlanAfterExhaustion` | lib/episode_planner.py:574-580 | Once exhaustion is true no plan call still in flight can commit |
| `PlannerInvariant.PlanKeeps` | lib/episode_planner.py:615-658 | A plan commit on a consistent project never aborts; committed, it appends its whole batch, moves the front strictly forward to the end of the batch and stays consistent; its exhaustion report is true of the new ledger |
| `PlannerInvariant.ExhaustedMeansCovered` | lib/episode_planner.py:568-580 | A plan call answering that the source is exhausted is right: every non-whitespace character is in exactly one episode |
| `PlannerInvariant.ResumesAtFront` | lib/episode_planner.py:1021-1066 | On a consistent project the effective start is the front of the tiling |
| `PlannerInvariant.BackfillKeeps` | lib/episode_ledger.py:289-372 | On a consistent project the backfill run before every snapshot and commit is the identity |
| `PlannerInvariant.ReconciledMatches` | lib/episode_planner.py:1099-1179 | Reconciling a numbered, anchored ledger succeeds and leaves exactly one file for each episode, holding the text of its range, and no remaining-text file |
| `PlannerInvariant.PreparedJobFits` | lib/episode_planner.py:568-609 | Whatever the model answers, a prepared batch has at most the configured number of drafts, one end for each, strictly increasing within the window the model was shown |
| `PlannerOutcome.EpisodesFollowAnswer` | lib/episode_planner.py:568-658 | From answer to ledger: the episodes a plan call adds are the first drafts, up to the limit, of the first usable answer, in its order, under consecutive numbers; each ends where its own anchor ends in the stretch of the source from the resuming place on that is as long as the window or all that is left, the last one moved over a blank tail exactly if that stretch ends the source; and exhaustion is reported exactly when it ends the last source with only whitespace left. This holds whatever happened between snapshot and commit |
| `PlannerOutcome.FilesEndInAnchors` | lib/episode_planner.py:568-658 | End to end: where a draft's anchor stands verbatim in that stretch it stands there once, its episode ends right behind it unless it is the last and moved, and the derived file of an episode that was not moved ends in the anchor |
| `PlannerOutcome.ExhaustedIff` | lib/episode_planner.py:648-658 | A committed plan reports exhaustion exactly when its window reached the end of the last source and only whitespace is left there |
| `PlannerOutcome.WindowIsStretch` | lib/episode_planner.py:583-590 | The window is the prefix of the rest of the source of the configured length, or all of the rest |
| `PlannerOutcome.AcceptedIsFirst` | lib/episode_planner.py:884-939 | The batch used is that of the first usable answer that resolves, with no cut-off answer before it |
| `PlannerOutcome.AcceptedEndAtAnchors` | lib/episode_planner.py:375-390 | Every accepted end is where its draft's anchor ends, the last one at the end of the window instead if it is to be moved and only whitespace follows |
| `PlannerOutcome.ReplanCarries` | lib/episode_planner.py:769-804 | A committed re-plan's episodes carry their drafts and ranges under consecutive numbers; a number is stale if and only if the episode it replaces was consumed or already stale |
| `ReplanOutcome.ReplanFollowsAnswers` | lib/episode_planner.py:678-804 | Re-plan from answers to ledger: the new layout is, slice by slice, the drafts of that slice's first usable answer about exactly its text, in its order, from the start of the slice on, each ending where its own anchor ends in that text and the last at the end of the slice; committed, the ledger carries it under consecutive numbers, stale exactly where a consumed or stale episode is replaced |
| `ReplanOutcome.RecutFollows` | lib/episode_planner.py:701-744 | The re-cutting of the slices pairs every draft with its own range |
| `ReplanConservation.SlicesCover` | lib/episode_planner.py:819-880 | Touching neighbours are merged: no source has two slices, and every affected range lies in one |
| `ReplanConservation.ResumesAtLatest` | lib/episode_planner.py:1021-1066 | Planning resumes at the last recorded position or at the cursor: the further one within one source, else at the cursor exactly if its source is known and not before the other's; a negative cursor does not count |
| `PlannerOutcome.ConsumedNeedsConfirmation` | lib/episode_planner.py:680-682 | A re-plan asked for without confirmation never replaces a consumed episode, not even one consumed between snapshot and commit |
| `Tiling.TilingCountsOnce` | lib/episode_planner.py:1099-1128 | Up to its front a tiling holds every non-whitespace character exactly once and no character twice; beyond the front nothing |
| `Tiling.BlankFromFrontCovers` | lib/episode_planner.py:574-580 | If only whitespace is left beyond the front, every non-whitespace character is in exactly one range |
| `Tiling.RepartitionTiles` | lib/episode_planner.py:750-809 | Any two partitions of the same slices are interchangeable at the end of a tiling, with the same front |
| `Tiling.RepartitionText` | lib/episode_planner.py:701-744 | Any two partitions of the same slices cut out the same text, across several source files |
| `Replanning.ReplanKeeps` | lib/episode_planner.py:750-809 | A re-plan commit on a consistent project stays consistent, keeps every episode before `from` and the front, and is never reported as exhausting the source |
| `Replanning.SlicesPartition` | lib/episode_planner.py:819-880 | The slices of the re-plan scope are partitioned by the ranges of the affected episodes |
| `Replanning.RecutPartition` | lib/episode_planner.py:701-744 | Re-cutting every slice, whatever the model answers, gives another partition of the same slices |
| `Replanning.PreparedReplanFits` | lib/episode_planner.py:678-744 | A prepared re-plan partitions its scope and, without confirmation, touches no consumed episode |
| `ReplanConservation.ReplanConservesText` | lib/episode_planner.py:662-817 | Re-plan conserves text on every ledger, consistent or not: the concatenated text from `from` on is the same before and after, over several files and with any number of episodes; the cursor and all other entries stay |
| `ReplanConservation.ReplanKeepsNextStart` | lib/episode_planner.py:1021-1066 | The next planning start survives a committed re-plan if and only if the highest episode number has one entry, or the cursor is not behind both the first entry with that number and the end of the new layout; the position recorded by the episodes alone survives exactly in the first case |
| `ReplanConservation.SameStartIff` | lib/episode_planner.py:1021-1066 | Two ledgers with one cursor resume at the same place if and only if their last recorded positions agree or the cursor leads both |
| `ReplanConservation.DuplicateMovesStart` | lib/episode_planner.py:769-817 | Two episodes numbered 1 over [0, 2) and [2, 4): planning would resume at 2; merging them is committed, and planning resumes at 4 |
| `ReplanConservation.NewAffected` | lib/episode_planner.py:769-804 | After the commit the entries from `from` on are exactly the new ones |
| `AnyLedger.NewNumbersAreFree` | lib/episode_planner.py:615-645 | On any ledger new episodes take the numbers right above the highest positive one, from 1 on if there is none, and all entries stay beside them |
| `AnyLedger.ReconciledIs` | lib/episode_planner.py:1099-1179 | Reconciling any ledger is refused exactly if an entry that gets a file has no range within its source; else each such number has its last such entry's text, files of other numbers of the ledger stay, files of no number of it go, and so does the remaining text |
| `AnyLedger.ScopeIff` | lib/episode_planner.py:819-880 | A re-plan scope is accepted exactly if it starts at the given number, holds no locked entry, and its ranges are not empty, touch within a source, and never come back to one |
| `AnyLedger.ConfirmationIff` | lib/episode_planner.py:678-690 | Confirmation is asked for exactly if it was not given and an accepted scope holds a consumed episode, and lists those |
| `AnyLedger.ReplanConflictIff` | lib/episode_planner.py:750-768 | A re-plan commit conflicts exactly if the scope is no longer accepted, a number or range in it changed, or an episode in it was consumed since; titles, hooks and other states do not matter |
| `AnchorResolution.ResolveBoundaries` | lib/episode_planner.py:279-390 | The boundary resolver accepts exactly the acceptable batches (every anchor located, ends advancing, closed windows covered); otherwise it names exactly the drafts whose anchor cannot be located, and a draft that does not advance exactly if that is the first fault |
| `AnchorResolution.ResolvedAreCuts` | lib/episode_planner.py:279-390 | On success: one end for each draft, strictly increasing within the window, each the end of its own anchor, the last one at the window's end instead exactly where only whitespace follows its anchor and a tail is to be snapped or covered; a closed window is covered to its last character |
| `AnchorResolution.LocateAnchor` | lib/episode_planner.py:307-375 | The three tiers, exact then folded then fuzzy, locate an anchor exactly when the first tier with any occurrence has a single one, counting overlaps; an ambiguous one is reported with its number of places |
| `AnchorResolution.RecoverAnchor` | lib/episode_planner.py:325-359 | A fuzzily recovered text is accepted only if it occurs once itself |
| `AnchorResolution.ExactAnchor` | lib/episode_planner.py:307-311 | A verbatim anchor is located where it stands if it occurs once, for any similarity function, and refused if it occurs twice, even overlapping |
| `AnchorResolution.FoldedAnchor` | lib/episode_planner.py:312-325 | An anchor that stands nowhere verbatim is located at the one text that is alike character by character: equal, both whitespace, or forms of one punctuation mark |
| `AnchorResolution.FuzzyAnchor` | lib/episode_planner.py:235-276 | An anchor that stands nowhere, not even up to folding, is located at the most similar stretch within a fifth of its length, the shortest and leftmost of several, exactly if its similarity is at least 0.78 and it occurs once itself |
| `AnchorResolution.CandidateIff` | lib/episode_planner.py:259-268 | The lengths the scan tries, as inequalities |
| `AnchorResolution.FindAllOverlapping` | lib/episode_planner.py:210-224 | Exactly the occurrences, overlapping ones included, in increasing order |
| `AnchorResolution.FuzzyRecover` | lib/episode_planner.py:235-276 | The scan with its early exit returns the first best candidate of the full scan, with its score, and nothing only if no candidate reaches the threshold |
| `AnchorResolution.BestMatchUnique` | lib/episode_planner.py:235-276 | The first best candidate is unique, so scan order alone decides the result |
| `AnchorResolution.CloseBatch` | lib/episode_planner.py:384-390 | The closing checks accept exactly the acceptable ends and move only the last one |
| `SourceText.FoldForMatch` | lib/episode_planner.py:191-207 | Folding keeps the length: one output character for each input character |
| `SourceText.FoldKeepsMatches` | lib/episode_planner.py:191-207 | Folding keeps every exact match at its position |
| `SourceText.FoldIdempotent` | lib/episode_planner.py:191-207 | Folded text has nothing left to fold |
| `SourceText.FoldIff` | lib/episode_planner.py:168-207 | A folded text occurs in a folded text exactly where something alike stands: the fold table makes equal exactly the forms of one mark and all whitespace |
| `SourceText.SpacesAre` | lib/episode_planner.py:200-207 | The whitespace characters, one by one |
| `SourceText.EndingsNormalize` | lib/episode_ledger.py:142-149 | Lines with any mix of LF, CR and CRLF endings normalise to the same lines with LF |
| `SourceText.NormalizeIdempotent` | lib/episode_ledger.py:142-149 | Normalising line endings twice is normalising once |
| `SourceText.SliceIsNormal` | lib/episode_ledger.py:142-149 | Any slice of normalised text reads back unchanged from a file |
| `EpisodePlanner.RequestValidatedDrafts` | lib/episode_planner.py:884-939 | The retry loop returns the first answer that resolves; a cut-off answer before it ends the attempt |
| `PlannerService.Planner.PreparePlan` | lib/episode_planner.py:568-609 | The unlocked part of `plan`, with its loops, computes the prepared job and changes nothing |
| `PlannerService.Planner.CommitPlan` | lib/episode_planner.py:615-658 | The commit of `plan` updating the project in place: the new state is the committed project, or the old one on a conflict or a fault |
| `PlannerService.Planner.PrepareReplan` | lib/episode_planner.py:678-744 | The unlocked part of `replan` computes the prepared re-plan, or the demand for confirmation, and changes nothing |
| `PlannerService.Planner.CommitReplan` | lib/episode_planner.py:750-809 | The commit of `replan` in place, with its conflict checks |
| `PlannerService.Planner.Reconcile` | lib/episode_planner.py:1099-1179 | Derived files are written only after every range has been validated; a fault leaves files and ledger as they were |
| `PlannerService.FindScope` | lib/episode_planner.py:819-880 | The slice-merging loop with its refusals refines the scope function |
| `PlannerService.RecutSlices` | lib/episode_planner.py:701-744 | The slice-by-slice loop stops at the first refused slice |
| `PlannerService.FindEffectiveStart` | lib/episode_planner.py:1021-1066 | The loop over entries and the choice between cursor and last range |
| `PlannerService.AdvanceOverBlank` | lib/episode_planner.py:574-580 | The loop over source files ends at the first place with text left |
| `LedgerRoundTrip.SplitRecover` | lib/episode_ledger.py:289-372 | Split then recover, over several sources: erasing every ledger field, or the whole list, and backfilling from the files gives back exactly the same ranges if and only if every episode that opens a source is findable (its text is not in what earlier episodes leave uncovered of an earlier source); the cursor then comes back too |
| `LedgerRoundTrip.InkIsFindable` | lib/episode_ledger.py:215-234 | When every episode has a non-whitespace character all are findable, so everything comes back |
| `LedgerRoundTrip.BlankOpenerIsLost` | lib/episode_ledger.py:215-234 | A consistent ledger whose second episode is one blank opening the second source, behind a first source that ends in blanks: its ranges do not come back |
| `LedgerRoundTrip.RecoverAll` | lib/episode_ledger.py:333-372 | The visits alone recover all ranges if and only if every episode is recorded or findable |
| `LedgerRoundTrip.PartialRecover` | lib/episode_ledger.py:289-372 | Erase the ledger fields of any episodes: exactly the same ranges come back, recorded ones among them, if and only if every erased episode that opens a source is findable, and then the cursor does too |
| `LedgerRoundTrip.AnchorStep` | lib/episode_ledger.py:215-234 | After a perfect recovery so far, an episode is anchored to its own range if it is findable, and else into an earlier source |
| `LedgerRoundTrip.TilesCovered` | lib/episode_ledger.py:215-234 | Behind the front of a tiling only whitespace is uncovered; ahead of it nothing is covered |
| `BackfillProperties.BackfillEveryEntry` | lib/episode_ledger.py:289-372 | Entries with a status stay; every other first-seen numbered entry gets one, with a range that cuts out exactly its file's text, or none if that text is empty or nowhere; entries are only added, for files that had none |
| `BackfillProperties.BackfillIdempotent` | lib/episode_ledger.py:289-372 | Running backfill again on the same files changes nothing |
| `BackfillProperties.ListedAre` | lib/episode_ledger.py:307-333 | The entries backfill works on are the given ones and, for every file with a number of its own, one with nothing but that number |
| `BackfillProperties.BackfillKeepsRest` | lib/episode_ledger.py:289-372 | A cursor that is there, the files and the remaining text are left alone |
| `BackfillProperties.VisitAllPointwise` | lib/episode_ledger.py:333-372 | Each visited entry is the outcome of its own visit; others are untouched |
| `BackfillSearch.AnchoredBehindEarlier` | lib/episode_ledger.py:333-372 | Where every entry without a status is anchored, told from the entries of lower number as backfill leaves them: ahead of what they have used up of each source (the end of the last newly anchored one there, raised by recorded ones after it), in the source of the latest of them if possible, else in the first; anywhere only if nowhere ahead; at the first place |
| `BackfillSearch.AnchoredAhead` | lib/episode_ledger.py:215-234 | In particular an entry whose text occurs ahead of some cursor lies at the first such place of a source, not on top of earlier entries, recorded or recovered |
| `BackfillSearch.FileTextIs` | lib/episode_ledger.py:333-345 | The text searched for is the file's lines whatever endings it was saved with, and nothing for a missing file or a negative number |
| `BackfillSearch.CursorBehindAll` | lib/episode_ledger.py:237-286 | The derived planning cursor: where the remaining text is found behind all entries, unless before the last one's end in its own source, else the last one's end |
| `BackfillSearch.VisitMoves` | lib/episode_ledger.py:333-368 | What a visit does to the search, told from the entry it leaves |
| `EpisodeLedger.BackfillEpisodeLedger` | lib/episode_ledger.py:289-372 | The loop that updates entries, cursors and the planning cursor step by step refines the backfill function |
| `EpisodeLedger.FindInSources` | lib/episode_ledger.py:215-234 | The two search passes, forward of the cursors first, then anywhere |
| `EpisodeLedger.MissingMeansNowhere` | lib/episode_ledger.py:215-234 | A text is reported missing if and only if it occurs in no source |
| `EpisodeLedger.VisitOrderMembers` | lib/episode_ledger.py:307-333 | The visit order holds exactly the first entry of each number, in order of number |
| `EpisodeLedger.VisitEntry` | lib/episode_ledger.py:333-368 | One turn of the backfill loop: kept, anchored with the status its downstream products demand, or locked as unanchored |
| `ProfileSync.UserContentSurvives` | lib/profile_manifest.py:539-652 | In every run of syncs, profile changes and user edits, no sync overwrites or deletes a file whose content was not the profile's own version of that path at an earlier sync |
| `ProfileSync.AbsentStaysAbsent` | lib/profile_manifest.py:577-642 | A recorded path that is absent stays absent, and recorded, through every sync until the user recreates it |
| `ProfileSync.UneditedFollowsIff` | lib/profile_manifest.py:572-652 | In every run a path the user never edits equals the profile's after each working sync, except, exactly, a path the profile brings back after having dropped it: it is not delivered again |
| `ProfileSync.BroughtBackStaysAway` | lib/profile_manifest.py:603-642 | Delivered, dropped by the profile, brought back: the file stays away though nobody edited it |
| `ProfileSync.TombstoneIffDropped` | lib/profile_manifest.py:603-608 | A path the user never edits has a tombstone if and only if an earlier sync found it gone from the profile after delivery |
| `ProfileSync.ResolveDelivers` | lib/profile_manifest.py:572-652 | A working sync delivers where there is neither file nor record, or where the file is as delivered, and leaves everything else |
| `ProfileSync.ResolveRecords` | lib/profile_manifest.py:572-652 | What a working sync records, for all combinations: a tombstone for a recorded file that is gone, the delivered version for a file equal to the profile's unless a tombstone was dropped, and for any other file the older record while the profile has the path, else none |
| `ProfileSync.EqualFollowsIff` | lib/profile_manifest.py:572-652 | In every run: a path that a working sync leaves equal to the profile, delivered or edited to the same, is in the next working sync what the profile then has, a new version or nothing, if and only if the first sync dropped no tombstone there or the profile's version is still the same |
| `ProfileSync.RecordsAreSeen` | lib/profile_manifest.py:539-652 | Only versions the profile has had are ever recorded as delivered |
| `ProfileSync.SyncConverges` | lib/profile_manifest.py:695-726 | With nothing touched in between, the second sync changes no project file and the third nothing at all |
| `ProfileSync.SecondSyncQuietIff` | lib/profile_manifest.py:619-650 | The second sync still writes the manifest if and only if the first one dropped a tombstone of a file restored to the profile's own content |
| `ProfileSync.RestoredWritesTwice` | lib/profile_manifest.py:619-650 | One such file: the second sync is not quiet |
| `ProfileSync.SyncAfterReset` | lib/profile_manifest.py:484-533 | A sync right after a full reset is a no-op if and only if every path that failed in the reset fails again |
| `ProfileSync.SyncedIsUnique` | lib/profile_manifest.py:699-721 | The outcome of a sync does not depend on the order of the paths |
| `ProfileSync.ResolveIsSafe` | lib/profile_manifest.py:539-652 | What one row of the table may do: record only the profile's version, touch no content other than the recorded one, bring back no recorded absence |
| `ProfileSync.ResolveSettles` | lib/profile_manifest.py:539-652 | Every row settles content after one sync and the record after two |
| `ProfileSync.ProjectDir.ApplyDecision` | lib/profile_manifest.py:539-652 | One decision in place: file, record and counters; created counts files that came into being, repaired those replaced or removed, every path counts once, and the nine detailed counters tell from profile, file and record what happened |
| `ProfileSync.ProjectDir.SyncPaths` | lib/profile_manifest.py:695-721 | The sync loop, in any order, with failing paths left alone: created + repaired + skipped + errors is the number of paths known anywhere |
| `ProfileSync.ProjectDir.SyncProfile` | lib/profile_manifest.py:658-726 | Refused for an empty profile, a reset without a usable manifest or after a change of mode, else a sync; the mode is recorded either way |
| `ProfileSync.ProjectDir.FullReset` | lib/profile_manifest.py:484-533 | After a reset the project holds exactly the profile's files and their records, except failed ones, and the counters account for every profile path |
| `RateLimiter.Limiter.AcquireLocked` | lib/gemini_shared.py:98-133 | The blocking acquire ends (its loop has a decreasing measure given a clock that sleeping advances), with exactly one grant made at the instant it ends, under a deque that still stands for the whole history; a caller the history admits when it comes does not sleep |
| `RateLimiter.Limiter.AttemptAsync` | lib/gemini_shared.py:146-181 | One asynchronous attempt grants exactly when the history admits it, and else says how long to sleep so that, left alone, the caller is admitted then, and for gaps up to 60 seconds not more than 0.1 seconds earlier |
| `RateLimiter.Limiter.Acquire` | lib/gemini_shared.py:88-133 | Immediate without a positive limit for the model, else one grant under it |
| `RateLimiter.Limiter.Refresh` | lib/gemini_shared.py:258-284 | New limits and gap leave every history and its guarantees alone |
| `RateLimiter.Limiter.DropExpired` | lib/gemini_shared.py:108-110 | The popping loop leaves exactly the unexpired suffix |
| `RateLimiter.Limiter.PromisesKept` | lib/gemini_shared.py:88-181 | For every grant ever made, however sync and async callers and refreshes were mixed: at most its limit in the closed 60 seconds ending with it, unless a later grant shares its instant under a larger limit without a gap; and its gap kept when that is at most 60 seconds |
| `RateLimiter.WindowNeverExceeded` | lib/gemini_shared.py:108-129 | The last grant of an instant has at most its limit in its window: the step from one locked test to the whole history |
| `RateLimiter.WindowsKeptIff` | lib/gemini_shared.py:88-129 | Exactly when the window holds: over a set of limits and gaps in force, every grant of every history drawn from them has at most its limit in the closed 60 seconds ending with it, if and only if no limit among them is outbid by a larger one without a positive gap. So it holds with positive gaps, and with one limit whatever the gap |
| `RateLimiter.WindowKeptOrOutbid` | lib/gemini_shared.py:88-129 | In any history the window of a grant is kept unless a later grant at its instant came under a larger limit and no gap |
| `RateLimiter.SameInstantExceeds` | lib/gemini_shared.py:258-284 | Without a gap, callers holding limits from before and after a refresh can exceed the smaller one in a single instant |
| `RateLimiter.GapHonouredIff` | lib/gemini_shared.py:108-122 | The requested gap is honoured by everything the limiter admits if and only if it is at most the 60-second window |
| `RateLimiter.WaitSuffices` | lib/gemini_shared.py:160-181 | The sleep handed out is long enough |
| `RateLimiter.AdmitsByHistory` | lib/gemini_shared.py:98-129 | The test on the pruned deque is a test on the whole history: fewer than the limit in the last 60 seconds and none of them within the gap |
| `RateLimiter.WaitNeeded` | lib/gemini_shared.py:160-181 | The sleep handed out is no longer than needed, but for the margin of 0.1 seconds |
| `RateLimiter.GrantTracks` | lib/gemini_shared.py:123-126 | A grant keeps the pruned deque a faithful stand-in for the history |
| `TaskLifecycle.OneTerminalStatus` | lib/db/repositories/task_repo.py:269-349 | In every interleaving a terminal status is never left and a row seen cancelling never ends succeeded or failed |
| `TaskLifecycle.CancelPrevails` | lib/db/repositories/task_repo.py:269-349 | In every run a cancel request that finds its task queued or running wins: it never succeeds or fails afterwards, and is cancelled at once if it was queued, and when the worker is done with it |
| `TaskLifecycle.SignalMarksRow` | lib/generation_worker.py:650-694 | Signalled while the executor runs, the cancellation is on the row before the future ends |
| `TaskLifecycle.FirstToLandWins` | lib/generation_worker.py:650-694 | A success under way when the signal comes and the cancellation after it: whichever lands first is the outcome |
| `TaskLifecycle.RequeueThenClaim` | lib/db/repositories/task_repo.py:226-260 | Put back in the queue and claimed again is as before |
| `TaskLifecycle.ScanSettles` | lib/generation_worker.py:800-846 | A scan cancels orphans being cancelled, fails running ones that cannot be resumed, and leaves everything else |
| `TaskLifecycle.UpdatesAreGuarded` | lib/db/repositories/task_repo.py:269-349 | A guarded update reports a row exactly if it changes it; marking cancelled ends whatever is not over, the other two only what is running |
| `TaskLifecycle.CascadeFailsQueued` | lib/db/repositories/task_repo.py:269-349 | A failing dependency fails a queued task for good and does nothing to any other |
| `TaskLifecycle.DrainedIsTerminal` | lib/generation_worker.py:615-633 | Every drained future has a terminal row for good, as has, before the drain, one that ended without a cancellation, with shielded updates landing at any time |
| `TaskLifecycle.RunSound` | lib/generation_worker.py:650-694 | The state of worker and row after every run: what a landed update, a finished future and a drain each imply |
| `TaskLifecycle.ExecutorDecides` | lib/generation_worker.py:650-694 | A queued job nobody cancels is never cancelled, its row follows the worker, and it ends with the executor's own outcome |
| `TaskLifecycle.WorkerAdvances` | lib/generation_worker.py:650-694 | A dispatched job can always take a step of its own and each brings it nearer the drain; cancel requests and signals do not hold it up |
| `TaskLifecycle.StrandedIff` | lib/generation_worker.py:531-563 | The claim loop's failing and re-queuing updates ignore the affected rows: the row is left cancelling with no worker if and only if a cancel request came between claim and update |
| `TaskLifecycle.CancelStrands` | lib/generation_worker.py:531-563 | Claimed, cancelled, put back: the row is stranded |
| `TaskLifecycle.StrandedUntilScan` | lib/generation_worker.py:800-846 | Such a row stays so exactly until orphans are scanned again, which cancels it |
| `TaskLifecycle.NobodyForgotten` | lib/generation_worker.py:507-578 | Every row that is neither queued nor terminal is being worked on, is stranded that way, or was an orphan at the start |
| `SlotTable.Slots.Register` | lib/generation_worker.py:235-245 | Registration in place, creating the bucket, overwriting the same id; no bucket is ever empty |
| `SlotTable.Slots.Promote` | lib/generation_worker.py:247-258 | Only the pending flag of the one occupant changes |
| `SlotTable.Slots.Release` | lib/generation_worker.py:260-267 | Exactly the one occupant goes, and its bucket when it was the last |
| `SlotTable.Slots.OccupiedProviders` | lib/generation_worker.py:281-283 | Exactly the providers with an occupant |
| `SlotTable.Slots.FindByTask` | lib/generation_worker.py:285-291 | Found wherever held, nothing exactly when held nowhere |
| `SlotTable.Slots.DrainFinished` | lib/generation_worker.py:293-303 | Exactly the finished, non-pending occupants are taken out and reported, all others stay, no bucket is left empty |
| `SlotTable.Worker.PoolFullProviders` | lib/generation_worker.py:489-505 | The blacklist built from occupied providers is exactly the set of all full providers |
| `SlotTable.Worker.ClaimLane` | lib/generation_worker.py:507-578 | One undisturbed pass of the claim loop, which queries from the head of the queue again after every claim, ends and comes to exactly one scan of the queue that never looks back: a job that waits for a dependency or is stored with a full provider is passed over, one without capacity fails, one with room is dispatched, and the first whose real provider is full after all is put back and ends it, everything behind it untouched. Hence claims go in queue order, nothing is lost or duplicated, dispatched jobs hold their slots and no lane grows beyond its capacity |
| `SlotTable.ScanClaims` | lib/generation_worker.py:507-578 | Claiming a job behind others that wait and starting over from the head comes to the same as going on behind it |
| `SlotPasses.ServesAllIff` | lib/generation_worker.py:507-578 | A pass leaves no ready job queued while its provider has room, over every table and all limits, if and only if every ready job with a stored provider is stored with its real one and every ready job without one has only ready jobs of the same real provider behind it |
| `SlotPasses.StopHidesRoom` | lib/generation_worker.py:547-563 | Two jobs, the first without a stored provider and its real one full: it is put back, and the second stays queued although its provider has room |
| `SlotPasses.StoredNeverPutBack` | lib/generation_worker.py:507-578 | When every ready job is stored with its real provider nothing is put back and every ready job left has a provider without room |
| `SlotPasses.RiggedScan` | lib/generation_worker.py:507-578 | With one provider full and room for the whole queue at another, what is stored with the full one stays queued, and so does everything behind a job that turns out to be of it |
| `SlotPasses.ScanByNumbers` | lib/generation_worker.py:94-114 | What a pass does to a job it claims, over the two maps of numbers: it fails exactly the jobs whose provider is listed without a positive number for the lane, or not listed and without a positive default; the lane of a dispatched job ends within its number, that of the one put back is full |
| `SlotRuns.ClaimsWithinCapacity` | lib/generation_worker.py:507-578 | In every run, with limits reloaded, resumed jobs registered, promoted and released and futures drained at every point where the claim loop is suspended: right after a dispatch its lane is within the capacity then in force and the job holds its slot; no other step of the claim loop changes the table |
| `SlotRuns.ClaimsWithinNumbers` | lib/generation_worker.py:94-114 | The same in every run, over the maps then in force: a held job is dispatched exactly if they have a number for its lane above its occupancy, and leaves it within that number |
| `SlotRuns.GrowsWithinCapacity` | lib/generation_worker.py:507-578 | Over any stretch of any run without pending registrations in a lane, the lane stays within every bound it kept at the start and its capacity keeps throughout |
| `SlotRuns.StepCounts` | lib/generation_worker.py:235-303 | Any step raises a lane by at most one, and only a dispatch into it or a pending registration does; nothing but a reload changes the limits |
| `SlotRuns.OccupantStep` | lib/generation_worker.py:235-303 | An occupant leaves by its release, or by a drain once its future is done, which never takes a pending one; it is promoted, or registered anew; no other step touches it |
| `SlotRuns.PendingHeld` | lib/generation_worker.py:235-303 | In every run a resumed job's pending slot is held, through drains and reloads, until it is promoted, released or registered anew |
| `SlotRuns.NeverAnEmptyBucket` | lib/generation_worker.py:235-303 | No bucket is ever empty, in any run |
| `SlotRuns.ClaimTakesOldest` | lib/db/repositories/task_repo.py:184-260 | A claim takes the oldest row that is ready and not of a provider on the blacklist of its turn, or none exactly when there is no such row |
| `SlotRuns.BlacklistIsFull` | lib/generation_worker.py:489-505 | That blacklist is exactly the full providers at the moment it was built |
| `SlotRuns.DispatchRegisters` | lib/generation_worker.py:566-576 | A dispatch adds the job, in flight, to what its lane held, and leaves it within capacity |
| `SlotTable.Worker.ClaimNext` | lib/db/repositories/task_repo.py:184-260 | The oldest job that is ready and not of a full provider, and none exactly if every job is blocked |
| `SlotTable.NextEligible` | lib/db/repositories/task_repo.py:213-226 | The chosen job has its dependency met and its stored provider is not on the blacklist; every older one fails one of the two |
| `ResumeBatch.PromotedWithinCapacity` | lib/generation_worker.py:1006-1048 | In every run permits and promoted resumes add up to the batch's capacity, so it is never exceeded |
| `ResumeBatch.NeverStuck` | lib/generation_worker.py:1006-1048 | While one waits, either one can be let in or one is running |
| `ProjectLocks.NoDeadlock` | lib/project_manager.py:1642-1676 | In every reachable state each waiting thread waits for one that can move, or for one that waits for one that can |
| `ProjectLocks.MovesEnd` | lib/project_manager.py:861-950 | A thread that can move has a move without an exception that does something, and each brings it nearer its end, at most twelve moves away |
| `ProjectLocks.ProjectWritesAreCurrent` | lib/project_manager.py:1708-1753 | No lost update: whoever changes project.json changes what is on disk at that moment; a sync adds just the binding of the script, as it is on disk or, when it was called without a script lock, as it was on disk at some earlier moment; only `save_project` overwrites blindly |
| `ProjectLocks.SeenOnDisk` | lib/project_manager.py:1015-1036 | What such a sync binds was on disk once |
| `ProjectLocks.LateSyncIff` | lib/project_manager.py:1015-1036 | It leaves project.json as a sync of the script then on disk would, if and only if the script it has read is for the same episode or neither changes a binding |
| `ProjectLocks.SyncMayBeStale` | lib/project_manager.py:1015-1036 | A script moved to another episode between the read and the write of such a sync is bound to the old episode |
| `ProjectLocks.ScriptWritesAreCurrent` | lib/project_manager.py:753-950 | No lost update on scripts: a read-change-write of a script starts from it as it still is, and `locked_episode_script` only writes the script its episode is bound to at that moment; only `save_script` overwrites or creates one blindly |
| `ProjectLocks.ScriptChangesArrive` | lib/project_manager.py:861-950 | In every run: once the caller has changed a script, and unless an exception is raised in its thread, the thread ends only when the changed script is on disk and its episode bound to it, whatever others do meanwhile |
| `ProjectLocks.ProjectChangesArrive` | lib/project_manager.py:1708-1753 | The same for a change of project.json |
| `ProjectLocks.SyncedOnly` | lib/project_manager.py:1038-1072 | A sync touches nothing but the binding of the script's episode |
| `ProjectLocks.GivesUpIff` | lib/project_manager.py:881-950 | The locked blocks end without the caller's change exactly when the episode is not bound, no longer bound to the script locked, or the script is not there |
| `ProjectLocks.RunInv` | lib/project_manager.py:861-950 | Locks are held by exactly the threads inside them and all copies read under them are current, in every run |
| `ProjectLocks.StepExclusive` | lib/project_manager.py:1642-1676 | Mutual exclusion is kept by every move, exceptions included |
| `BraceScanner.PrintThenScan` | lib/script_generator.py:141-169 | For any sequence of JSON objects in the grammar of RFC 8259, nested and escaped at will, between text free of quotes and opening braces, the candidates are exactly the printed objects, in order |
| `BraceScanner.FindCandidates` | lib/script_generator.py:141-169 | The loop over depth, start and string flags refines the scanner on states |
| `BraceScanner.ValuePasses` | lib/script_generator.py:147-169 | Inside a block every printed value, to any depth, is passed over whole |
| `BraceScanner.QuotesDecide` | lib/script_generator.py:141-169 | After prose without an opening brace the object is found if and only if the quotes of the prose pair up as JSON strings would, a property of the prose alone |
| `BraceScanner.PairUpIffEven` | lib/script_generator.py:147-156 | In prose without a backslash the quotes pair up if and only if their number is even |
| `BraceScanner.PairUpScanned` | lib/script_generator.py:147-156 | The quotes of the prose pair up exactly when the scanner is outside strings after it |
| `BraceScanner.PrintedStringCloses` | lib/script_generator.py:147-156 | A printed JSON string, escapes included, closes at its own closing quote |
| `BraceScanner.StrayQuoteHides` | lib/script_generator.py:141-169 | One quotation mark before any valid object hides it; before `{}` nothing at all is found |
| `AspectSize.SizeIsBest` | lib/aspect_size.py:59-112 | The size has exactly the ratio and sides divisible by the step; it is within the caps whenever any legal size is, and then no legal size within them has a short edge nearer the target; else it is the smallest legal size |
| `AspectSize.LegalSizesAre` | lib/aspect_size.py:67-74 | The sizes with exactly the ratio and divisible sides are exactly the multiples of one smallest size |
| `AspectSize.ScaleInvariant` | lib/aspect_size.py:43-56 | Multiplying both terms of the ratio changes nothing |
| `AspectSize.ReducedIs` | lib/aspect_size.py:43-56 | The reduced terms are coprime and in the same ratio |
| `AspectSize.InvalidIsPortrait` | lib/aspect_size.py:43-54 | A ratio that is not two positive numbers counts as 9:16 |
| `AspectSize.RoundedIsNearest` | lib/aspect_size.py:92-93 | Rounding half to even picks a nearest multiple |
| `AspectSize.FloatQuotientSuffices` | lib/aspect_size.py:92-93 | Rounding the correctly rounded double quotient gives the exact rounding, for every target below 2^52 |
| `ScriptEditor.NextSuffixedId` | lib/script_editor.py:59-74 | The fresh-id search ends within one more try than there are ids and returns the first free suffix of the stem |
| `ScriptEditor.TriedAreTaken` | lib/script_editor.py:71-74 | The ids tried are as many different taken ids, so they run out |
| `ScriptEditor.FreshShape` | lib/script_editor.py:59-74 | A new id is the stem of its anchor, an underscore and a number |
| `ScriptEditor.Script.InsertSegment` | lib/script_editor.py:119-133 | A new item right after the first one with the anchor's id, without assets, under the first free suffix of the anchor's stem; all others keep place, id and content; ids stay distinct and well formed |
| `ScriptEditor.Script.RemoveSegment` | lib/script_editor.py:136-141 | Only the first item with the id goes; ids stay distinct and well formed |
| `ScriptEditor.Script.SplitSegment` | lib/script_editor.py:144-194 | The parts take the place of the first item with the id, the first keeping its id and assets, each other one under the suffix of the stem that is then the first free, without assets; everything else stays; ids stay distinct and well formed |
| `ScriptEditor.Script.PatchField` | lib/script_editor.py:77-116 | Only the first item with the id changes, and only at the path; an unknown id, an empty part, a reserved first part, a missing parent and a parent that is no object are each refused exactly then, in that order, with nothing changed; ids and assets stay |
| `ScriptEditor.SetNested` | lib/script_editor.py:77-108 | The walk down the path with its checks ends with the assignment or at the first parent that is missing or no object |
| `ScriptEditor.PutThenGet` | lib/script_editor.py:87-108 | The value is found at the path afterwards, and below the path what the value holds there |
| `ScriptEditor.PutElsewhere` | lib/script_editor.py:87-108 | Everything neither above nor below the path is as it was, at any depth |
| `ScriptEditor.PutAbove` | lib/script_editor.py:87-108 | What is above the path is still an object |
| `ScriptEditor.PartsRejoin` | lib/script_editor.py:77-79 | Splitting a path at its dots loses nothing and leaves no dot in a part |
| `ScriptEditor.SplitKeepsIds` | lib/script_editor.py:166-194 | Replacing an item by such parts keeps ids distinct and well formed |
| `ScriptEditor.MakeParts` | lib/script_editor.py:166-192 | The loop that makes the parts of a split |
| `CompressionDescent.Run` | lib/media_generator.py:184-227 | The descent loop is the same as trying the payloads of exactly the fitting steps in order until one is not found too large; the calls made are the fitting steps in order, all but the last too large, and stop short of the floor only at a reply that is not too large |
| `CompressionDescent.MadeIsUnique` | lib/media_generator.py:184-227 | That fixes the calls: at strictly increasing steps, at most five |
| `CompressionDescent.SelectStep` | lib/reference_compression.py:158-192 | The step chosen is the least fitting one at or after its start, or none fits to the floor |
| `CompressionDescent.Payload` | lib/reference_compression.py:214-278 | The merged list has one reference for each spec, in order, compressed or passed through |
| `CompressionDescent.FitsIffSentFits` | lib/reference_compression.py:158-278 | A step fits exactly when the bytes that would be sent keep to the total and every readable image of an array to its own limit: what is measured beforehand is what is sent |
| `CompressionDescent.LadderDescends` | lib/reference_compression.py:20-60 | Each step down is at most as large and as fine as the one before, and different |
| `CompressionDescent.SentAsIs` | lib/reference_compression.py:96-156 | A reference goes as it is exactly if it cannot be read, is a frame within the limits, or at the first step a JPEG of at most 1 MiB and 2048 pixels; any other is re-encoded, frames at full size, array images by the step |
| `CompressionDescent.RefsMatch` | lib/reference_compression.py:245-278 | Labels and roles match the specs one to one, unreadable sources go through as they are, and a frame is the same at every step |
| `CompressionDescent.FittingFrom` | lib/reference_compression.py:158-192 | The fitting steps, each once, increasing, never more than the ladder and its floor |
| `CompressionDescent.ReadableIs` | lib/reference_compression.py:233-243 | The compressible subset holds exactly the readable images at their places |
| `VersionHistory.VersionManager.AddVersion` | lib/version_manager.py:146-224 | One above the highest number so far, current from now on, its bytes in a file of its own; every record, kept or lost before, stands as before |
| `VersionHistory.VersionManager.EnsureCurrentTracked` | lib/version_manager.py:252-287 | Adds the current file once, only when it exists and nothing is current, exactly as an added version; all other resources, records and files stay |
| `VersionHistory.VersionManager.RestoreVersion` | lib/version_manager.py:289-346 | For any current file: a version whose file still holds its bytes comes back with exactly those; only the current file and number change; every record keeps its bytes unless the current file is its own; unknown resources, unknown versions, missing files and the version's own file as target are refused without effect |
| `VersionHistory.RestoreLosesIff` | lib/version_manager.py:337-338 | A restore loses a saved version if and only if the current file is the file of one saved with other bytes |
| `VersionHistory.RestoreOverVersion` | lib/version_manager.py:337-338 | Versions [1] and [2] of one resource, the first restored into the file of the second: both were held, and [2] is lost |
| `VersionHistory.FileNameInjective` | lib/version_manager.py:195-199 | Version file names are injective in id and number, even for ids that look like names |
| `VersionHistory.FilesAreDistinct` | lib/version_manager.py:195-199 | No two records share a file |
| `VersionHistory.AddKeepsBytes` | lib/version_manager.py:195-217 | Writing a new version's file leaves every other record with what it held |

## Left out

- Unicode NFC normalisation: texts are taken to be in normal form; only line endings are modelled.
- The similarity ratio of `difflib`: any function into [0, 1].
- Reading files and validating model answers: sources are given texts, answers arrive as typed drafts, cut-off or unparsable answers as such.
- Sources added, removed or edited while planners run: the set of sources is fixed during a run.
- Script files, outlines, episode summaries, target sizes and other ledger fields that no planning step reads.
- Negative or non-integer ends in a hand-edited range: reported as a fault of the range, with no distinction of messages; malformed ranges count as absent.
- Entries that are not objects: merged with entries without a number.
- Failures while writing or deleting derived files: writes succeed once validated.
- Zero-padded or otherwise unusual episode file names: files are a map from number to text.
- `force_resync_profile`, variant files of a mode and the path-escape guard of the profile sync; a path whose file operations fail is left exactly as it was.
- Hash collisions: contents are identified with their hashes.
- Floating-point time: instants and durations are real numbers on a clock that never runs backwards.
- AttemptAsync: one locked attempt of `acquire_async` at a time; that a caller is granted in the end is not claimed, since others may be granted between its attempts.
- SQL, leases, heartbeats and database errors: rows change only by the guarded updates; any row may be hit by a cascade at any time, so dependencies need no model.
- Resumed jobs go through `ResumeBatch` only; their own finishing steps repeat those of `_process_task`.
- Worker shutdown and the stop event.
- Legacy migrations, metadata time stamps and media storage around project and script files; a caller taking further locks inside a lock-guarded block.
- Schema checks of scripts; nested objects are values, so that two segments share one object, or a caller keeps a reference into the script, is not captured.
- Image decoding and encoding: one opaque function from bytes, edge and quality to bytes; temporary files are represented by their bytes.
- AddVersion: a source that already stands at the new version's own path, which the copy would refuse before anything is recorded.
- FloatQuotientSuffices: targets of 2^52 pixels and more, where a double no longer resolves halves.
- ClaimLane: one pass that no reload and no other registration interrupts, and whose rows do not change meanwhile; the suspensions at lib/generation_worker.py:520-563 are in `SlotRuns`, which in turn says nothing about the order of a whole pass.
- ClaimNext: blacklist and claim in one step; `SlotRuns` takes them apart. Whether a row's dependency has succeeded is a flag of the row.
- PlannerRuns: a snapshot takes project and derived files at one instant, while lib/episode_planner.py:568 loads the project under the lock and reads the files afterwards. The tiling holds for any snapshot; that an exhaustion report is true uses the one instant.
- Parsing the text of an aspect ratio and the tier tables: ratios arrive as two integers; the warning for extreme ratios has no effect on the result.
- Validators, status counters, prompt builders, providers and routes, which would only add easy members.
