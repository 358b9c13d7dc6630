# xcb maintenance, release and qualification: a verified model

This project models the self-contained cores of the repository's maintenance,
release and qualification programs and proves what they promise.

- **Terminal screen** (`TerminalModel`, `TerminalScreen`, `TerminalLaws`,
  `TerminalMeaning`): the
  incremental VT parser over a cell grid, as a class that updates its cells in
  place. Splitting the input anywhere makes no difference; cells, cursor, colours,
  buffered text and failure are the same. Tables of combining and wide characters
  are parameters, and raised errors are outcomes.
- **npm release retries** (`NpmVisibility`, `NpmRelease`, `NpmProgress`): one workflow run of many
  attempts against a registry that accepts a version once and shows it late. Exit
  code 0 of a publish is taken to mean that this upload was accepted, a version is
  taken to be immutable, and sleeps to last at least as long as asked.
- **Heartbeats** (`HeartbeatModel`, `HeartbeatProtocol`, `HeartbeatSchedule`): a sender with a durable
  counter, a server with a stored sequence and a rate limit, and a network that
  loses, duplicates and delays. Clocks are arbitrary except in the delivery
  theorem.
- **Model reviews** (`ReviewModel`, `ReviewCustody`, `ReviewLaunches`): the crash-safe intent log of
  reviews and its rate limits over a truncated log, for arbitrary positive clocks.
- **Dependency preparation** (`PreparationFiles`, `PreparationProtocol`,
  `PreparationAttempts`): intent and
  result files, one file operation at a time, through kills, partial files and loss
  of power. A prepare request is taken to reach the guest while its transport call
  runs, or never.
- **APT sources** (`AptText`, `AptSources`, `AptLaws`, `AptMeaning`): finding the addresses of a
  source file in both formats and rewriting those of the Azure mirror.
- **Contact workspace** (`WriterModel`, `WriterLaws`, `WriterProgress`): the promise chain per file
  and its compare-and-swap with two reads. A revision stands for the text it is the
  digest of; stage names are never used twice.
- **Protobuf and Connect codec** (`Codec`, `CodecLaws`): numbers are JavaScript
  numbers, so the sum of a varint is rounded; the rounding is a parameter that is
  exact below two to the fifty-third. Terms are those of the Protocol Buffers
  encoding guide, sections "Base 128 Varints" and "Message Structure".
- **Remote refs** (`RefInventory`, `RefLaws`): the inventory of refs, its canonical
  form, and the newest version.
- **GitHub draft** (`DraftModel`, `DraftLaws`, `DraftProgress`): the resumable release draft, as
  steps between which the run can die. One run is at work at a time, nothing else
  changes the tag's drafts, and an upload or a create happens whole or not at all.
- **Release assets and body** (`ReleaseAssets`, `ReleaseLaws`): pairing native
  archives with checksums, the assets of a release, and the body of its page.

Methods and classes follow the programs' own loops and fields; each is proved
against a specification function, and the laws are lemmas about those functions.
What each operation does is also told without them: from the text that is fed or
parsed, the run so far, or the history of what happened (`TerminalMeaning`,
`AptMeaning`, `NpmProgress`, `HeartbeatSchedule`, `ReviewLaunches`,
`PreparationAttempts`, `WriterProgress`, `DraftProgress`).
`Wrappers`, `Texts` and `Sets` hold what several modules share.

Where the programs do not keep what a reader might expect, the condition under
which they do is proved, and the failing runs are exhibited:

- A control sequence is buffered for ever exactly when it is spoiled
  (`SpoiledSequenceStalls`).
- A version published by another run can be recorded as observed; admission then
  refuses it (`ForeignVersionIsObservedThenRefused`).
- Under a history of configured keys a heartbeat can be accepted twice exactly when a
  key returns after another key was configured (`NoSequenceTwice`).
- No fresh heartbeat is ever refused exactly when delivery takes at most 239.001 s from
  sending: at 240 s one can be, for the sender records whole seconds
  (`TimelyHeartbeats`).
- Finishing a preparation reuses a result file that an interrupted attempt left
  without a sync, and removes the intent. A record is durable when its intent is removed
  and when its terminal is acknowledged exactly if this attempt wrote it or it was
  durable when reused (`IntentLeavesReleased`, `AcknowledgedAfterRecord`). Custody
  survives power loss over every run that reuses only durable records
  (`CustodyThroughPowerLoss`); the first reuse after such a run keeps it, followed to its
  end, exactly if its record is durable (`ReuseKeepsCustodyExactly`), whatever was
  requested (`ReusingUnsyncedLoses`). A run from an empty root loses a request before
  anything is acknowledged (`CustodyCanBeLost`).
- A contact-file writer replaces what its first read saw exactly when the owner does not
  race it between its second read and its rename (`ReplacesUnlessRaced`,
  `EditIsOverwrittenExactly`), whatever it expects.
- Two listed drafts stop a run that its tag does not answer with one (`TwoDraftsStop`);
  a run can create, upload or publish exactly when it is answered with a draft to resume,
  or the list shows none, or one to resume (`CallsExactly`). So a first look can lead to a
  second draft exactly when there is a draft and the list still hides every one
  (`SecondDraftExactly`), and one of the two can be published with the other still there
  (`DoubledFromNothing`, `LateListingPublishes`, `AnsweredPublishes`). If every first look
  shows the draft there is, each asset is uploaded once (`EachAssetOnce`).

## Model

| member | source | states |
|---|---|---|
| TerminalModel.ErasedCellwise | qualification/agent-grid-acceptance.py:133-142 | a grid that agrees with the erased region cell by cell is the erased screen |
| TerminalScreen.Terminal.constructor | qualification/agent-grid-acceptance.py:41-50 | a new terminal is blank, at the origin, in default colours, with nothing buffered |
| TerminalScreen.Terminal.Resize | qualification/agent-grid-acceptance.py:47-50 | resizing blanks the grid and homes the cursor; colours and buffered text stay |
| TerminalScreen.Terminal.Feed | qualification/agent-grid-acceptance.py:69-114 | feeding is consuming buffered and new text by the specification, raised errors included |
| TerminalScreen.Terminal.Receive | qualification/agent-grid-acceptance.py:94-114 | one character moves, prints, wraps or combines as specified |
| TerminalScreen.Terminal.Command | qualification/agent-grid-acceptance.py:116-160 | one control sequence has its specified effect or fails as the program raises |
| TerminalScreen.Terminal.MoveCursor | qualification/agent-grid-acceptance.py:121-132 | cursor commands clamp to the grid |
| TerminalScreen.Terminal.EraseDisplay | qualification/agent-grid-acceptance.py:133-137 | the nested loops blank exactly the named region |
| TerminalScreen.Terminal.EraseInLine | qualification/agent-grid-acceptance.py:138-142 | the loop blanks exactly the named part of the line |
| TerminalScreen.Terminal.SetColors | qualification/agent-grid-acceptance.py:143-158 | the loop over the parameters sets the colours the list means, or fails where it is cut short |
| TerminalLaws.ControlSequenceExact | qualification/agent-grid-acceptance.py:75-81 | the lexer cuts a control sequence exactly where the pattern matches |
| TerminalLaws.LexExtends | qualification/agent-grid-acceptance.py:71-94 | a token is fixed by its own prefix: more input never changes it |
| TerminalLaws.FeedSplit | qualification/agent-grid-acceptance.py:69-114 | feeding two pieces in turn is feeding them at once, or both fail at the same escape |
| TerminalLaws.ChunkIndependence | qualification/agent-grid-acceptance.py:34-40 | the same for any number of pieces split anywhere |
| TerminalLaws.FeedIsFold | qualification/agent-grid-acceptance.py:69-114 | feeding is folding the meanings of the tokens in order |
| TerminalLaws.SpoiledSequenceStalls | qualification/agent-grid-acceptance.py:75-78 | a sequence stays pending under every continuation exactly when a character no match can pass has spoiled it; any other one some text completes |
| TerminalLaws.StalledScreen | qualification/agent-grid-acceptance.py:69-78 | whatever follows a spoiled sequence never reaches the screen |
| TerminalLaws.GridSafety | qualification/agent-grid-acceptance.py:94-160 | every token keeps the grid's shape and the cursor's bounds, changes no cell it does not name, and indexes past a row exactly for a combining mark one past the last column |
| TerminalLaws.PrintSafety | qualification/agent-grid-acceptance.py:107-114 | printing changes only the cells it names |
| TerminalLaws.PastRowNeedsWide | qualification/agent-grid-acceptance.py:107-114 | the cursor passes the row by one exactly after a wide character in the last column |
| TerminalLaws.FeedKeepsGrid | qualification/agent-grid-acceptance.py:69-114 | over a whole stream shape and bounds hold |
| TerminalLaws.EraseHalves | qualification/agent-grid-acceptance.py:133-142 | erasing to the end and then to the start is erasing all, for display and line |
| TerminalLaws.EraseToEndThenStart | qualification/agent-grid-acceptance.py:133-142 | the same as the commands that reach the screen |
| TerminalLaws.SgrSplits | qualification/agent-grid-acceptance.py:143-158 | a complete colour list followed by another means one after the other |
| TerminalMeaning.PositionCommand | qualification/agent-grid-acceptance.py:121-123 | fed `ESC [ row ; column H` (or f) puts the cursor in that row and column, counted from 1, missing or 0 being 1 and too large the last; nothing else changes |
| TerminalMeaning.MoveCommand | qualification/agent-grid-acceptance.py:124-132 | fed A to G and d move by their count, or to the place it names, and stop at the edges |
| TerminalMeaning.EraseCommand | qualification/agent-grid-acceptance.py:133-142 | fed J, K and X blank exactly the cells they name, in the current colours, and change nothing else |
| TerminalMeaning.PrintedCharacter | qualification/agent-grid-acceptance.py:106-114 | a printed character is in its cell in both current colours, a wide one has emptied the next, and the cursor has moved past it |
| TerminalMeaning.CombiningMark | qualification/agent-grid-acceptance.py:101-105 | a combining mark is added to the text of the cell before the cursor, which keeps its colours |
| TerminalMeaning.ControlCharacter | qualification/agent-grid-acceptance.py:95-100 | carriage return, line feed and backspace move the cursor; other control characters do nothing |
| TerminalMeaning.WritesAt | qualification/agent-grid-acceptance.py:163-170 | a position and narrow text fed after it: the text stands there, and nothing else has changed |
| TerminalMeaning.ColorCommand | qualification/agent-grid-acceptance.py:143-158 | a fed colour command leaves the colours its last items set; a colour cut short counts as far as it goes, or fails when nothing follows its 38 or 48 |
| TerminalMeaning.EveryList | qualification/agent-grid-acceptance.py:143-158 | every parameter list is such items and perhaps one colour cut short |
| TerminalMeaning.ParametersExactly | qualification/agent-grid-acceptance.py:119-119 | parameters are read exactly when there are only digits and semicolons |
| TerminalMeaning.UnconcernedSequence | qualification/agent-grid-acceptance.py:116-118 | private sequences and those that do not concern the screen have no effect |
| TerminalMeaning.RefusedSequence | qualification/agent-grid-acceptance.py:119-160 | others are refused exactly for parameters that are not numbers, unknown finals and a missing colour |
| TerminalMeaning.SystemCommand | qualification/agent-grid-acceptance.py:82-87 | an operating system command is passed over up to its first terminator |
| TerminalMeaning.OtherEscape | qualification/agent-grid-acceptance.py:88-93 | a character set is passed over; any other escape is refused and stays pending |
| NpmVisibility.DelayIsCappedDoubling | scripts/publish-npm-release.ts:29-39 | the delay of attempt k is five seconds doubled k-1 times, at most sixty, for every k |
| NpmVisibility.AwaitVisibility | scripts/publish-npm-release.ts:54-94 | returns the first value served, gives up only past the deadline and after a poll, and ends within 29 polls of the window |
| NpmVisibility.ClockAfterPolls | scripts/publish-npm-release.ts:62-94 | how far the clock has moved after k polls when sleeps last as long as asked |
| NpmVisibility.WindowClosesBy29 | scripts/publish-npm-release.ts:24-25 | the 25-minute window is over by the twenty-ninth poll |
| NpmVisibility.BoundIsReached | scripts/publish-npm-release.ts:62-94 | a clock that moves exactly as asked takes all 29 polls |
| NpmRelease.StepKeepsInvariant | scripts/publish-npm-release.ts:469-535 | every step keeps what is known of phases, registry and records, and never changes an accepted version |
| NpmRelease.RunKeepsInvariant | scripts/publish-npm-release.ts:469-535 | so does every sequence of attempts, reruns, lost and late publishes |
| NpmRelease.RetrySafety | scripts/publish-npm-release.ts:469-535 | a completion is recorded only for exactly the reviewed bytes; `published` names the provenance attempt, `observed_existing` of this run no earlier one; the admitted attempt never completes on what it did not publish |
| NpmRelease.AdmissionMatchesCompletion | scripts/check-public-release.ts:146-208 | the constraints derived from any recorded completion accept exactly this run's publication |
| NpmRelease.ForeignVersionIsObservedThenRefused | scripts/publish-npm-release.ts:117-131 | another run's identical version can be observed by a retry, and admission refuses it |
| NpmRelease.VisibleReleaseCompletes | scripts/check-npm-retry-state.ts:98-146 | once this run's version is visible the next attempt completes in either rerun mode, whatever the dry run conflict says |
| NpmProgress.PreflightExactly | scripts/check-npm-retry-state.ts:98-146 | preflight admits exactly a version that is not served, or this run's own exact one |
| NpmProgress.DryRunExactly | scripts/npm-publisher-boundary.ts:35-58 | the dry run lets an attempt go on exactly when it passes, or when a later attempt meets a conflict with the very bytes admitted |
| NpmProgress.WriterExactly | scripts/publish-npm-release.ts:468-495 | a writer uploads exactly when the version is not served under a preflight that said so; it observes exactly the admitted bytes, admitted as such or appeared after the admitted attempt; else it gives up |
| NpmProgress.ExitExactly | scripts/publish-npm-release.ts:495-502 | an exit that is not 0 is final in the admitted attempt only |
| NpmProgress.PollExactly | scripts/publish-npm-release.ts:509-535 | polling completes exactly on the admitted bytes, as published after exit 0 and as observed otherwise |
| NpmProgress.UploadsComeFromWriters | scripts/publish-npm-release.ts:494-495 | nothing but such a writer uploads |
| NpmProgress.WriterPublishes | scripts/publish-npm-release.ts:494-525 | from every state in which a writer runs under an absent preflight, in the same or a later attempt, the version can be published and is recorded for this run and attempt |
| NpmProgress.FirstReleaseIsPublished | scripts/publish-npm-release.ts:468-525 | for every run and bytes, and after any number of failed attempts, a run from the start publishes and records the attempt that uploaded |
| NpmProgress.AdmitsExactly | scripts/check-public-release.ts:146-208 | constraints are derived exactly from consistent input, and allow exactly the releases that may be admitted |
| HeartbeatModel.SenderFile.Tick | scripts/unattended-maintenance.py:854-895 | one tick reserves its sequence before sending and settles or backs off as specified |
| HeartbeatModel.StatusTable.Record | convex/hostStatus.ts:139-194 | the mutation answers and stores as specified: one row per machine, one history entry per acceptance, 409 for arguments it cannot parse |
| HeartbeatProtocol.StepKeepsInvariant | scripts/unattended-maintenance.py:872-894 | sequences identify messages, the stored row is the last receipt, receipts are spaced |
| HeartbeatProtocol.HeartbeatSafety | convex/hostStatus.ts:165-171 | on any clocks and network the stored sequence never exceeds the sender's, receipts are 60 s apart, and under an unchanged key accepted sequences strictly increase |
| HeartbeatProtocol.SpacedFarApart | convex/hostStatus.ts:168-171 | the same between any two receipts |
| HeartbeatProtocol.SequenceNamesRequest | scripts/unattended-maintenance.py:872-875 | two receipts have one sequence exactly when they are of one request |
| HeartbeatProtocol.AcceptedAgainExactly | convex/hostStatus.ts:165-171 | an accepted request is accepted again exactly under its own key, a minute after the last receipt, if that was under another key or of a lower sequence |
| HeartbeatProtocol.NoSequenceTwice | convex/hostStatus.ts:147-171 | under a history of configurations some run accepts a request twice exactly when a key returns after another key was configured |
| HeartbeatProtocol.ReturningKeyAcceptsTwice | convex/hostStatus.ts:147-171 | for every such history, a run from the start under those very configurations that accepts a request twice |
| HeartbeatProtocol.TimelyHeartbeats | scripts/unattended-maintenance.py:866-895 | with agreeing clocks, no run refuses a fresh heartbeat exactly when delivery takes at most 239.001 s from sending |
| HeartbeatProtocol.LateDeliveryIsRefused | convex/hostStatus.ts:170-170 | with any longer delivery, the run in which a fresh heartbeat meets 429 |
| HeartbeatSchedule.FollowsSchedule | scripts/unattended-maintenance.py:863-894 | over all ticks the sender attempts exactly what is due by its earlier attempts: five minutes after the last, doubled for each failure in a row up to half an hour, with a fresh sample |
| HeartbeatSchedule.SendsExactly | scripts/unattended-maintenance.py:866-878 | a tick sends exactly if it is due and did not die first, under the number of attempts so far |
| HeartbeatSchedule.AnswersExactly | convex/hostStatus.ts:147-194 | each answer is given exactly by what is configured and what was accepted last; only an acceptance changes anything |
| HeartbeatSchedule.HistoryIsReceipts | convex/hostStatus.ts:188-188 | over every run the history holds the time of each acceptance |
| ReviewModel.ParseReview | scripts/unattended-maintenance.py:655-679 | a session is read exactly from output that shows one thread, one completed turn and no failure, matching the expected session |
| ReviewModel.ReviewFile.Tick | scripts/unattended-maintenance.py:682-713 | one tick: intent before launch, outcome after it, at every crash point |
| ReviewModel.ReviewFile.Reconcile | scripts/unattended-maintenance.py:716-746 | reconciliation clears exactly the named pending run on matching fresh evidence |
| ReviewCustody.StepKeepsCustody | scripts/unattended-maintenance.py:682-746 | every step keeps log, history and pending in agreement |
| ReviewCustody.ReviewCustodyHolds | scripts/unattended-maintenance.py:682-746 | at most one launched review is unresolved, the last, exactly when pending names it; resolved reviews and a set session never change |
| ReviewCustody.LaunchIsLate | scripts/unattended-maintenance.py:606-617 | a launch comes a cooldown after the one before and within the day's limit of the full history |
| ReviewCustody.LogCountsLikeHistory | scripts/unattended-maintenance.py:613-615 | after a cooldown the 96 logged runs count like all runs ever launched |
| ReviewCustody.LaunchesAreApart | scripts/unattended-maintenance.py:616-618 | over all runs, launches are at least 900 s apart in launch order |
| ReviewCustody.ReviewRate | scripts/unattended-maintenance.py:613-618 | no window of 86400 s holds more launches than the configured daily limit |
| ReviewLaunches.LaunchesExactly | scripts/unattended-maintenance.py:606-625 | by the full history: a tick that survives its intent launches exactly when no review is unresolved, reviews are enabled, the sample is at most 180 s old, the day's limit and the cooldown allow it, and an incident or the interval asks for it |
| ReviewLaunches.LaunchLeaves | scripts/unattended-maintenance.py:690-713 | what a launch leaves: the review in the history, and either its intent pending or session, completion time and marks |
| ReviewLaunches.ReconcilesExactly | scripts/unattended-maintenance.py:716-746 | evidence is taken exactly when it is attested, fresh and names the last, unresolved review and its session; then that review alone is resolved |
| ReviewLaunches.MarksMean | scripts/unattended-maintenance.py:700-706 | over every run the mark of an incident is the start of the last finished review that was shown it, and the completion time that of the last completion |
| PreparationFiles.CommandRoot.DurableCreate | scripts/prepare-command-dependencies.py:409-423 | creates and syncs without clobbering, or changes nothing |
| PreparationFiles.CommandRoot.BeginIntent | scripts/prepare-command-dependencies.py:457-469 | begins exactly when no intent is retained; then the intent is alone and durable |
| PreparationFiles.CommandRoot.FinishIntent | scripts/prepare-command-dependencies.py:495-514 | removes the intent exactly for a valid joined terminal of it whose record is, or becomes, the one stored |
| PreparationProtocol.StepKeepsInvariant | scripts/prepare-command-dependencies.py:457-536 | every file operation, kill and loss of power keeps the files in the shape the phase needs |
| PreparationProtocol.RequestOnlyUnderItsIntent | scripts/prepare-command-dependencies.py:559-563 | a request reaches the guest only while its intent is complete, durable and alone on disk |
| PreparationProtocol.IntentLeavesReleased | scripts/prepare-command-dependencies.py:495-514 | over every run, power kept, an intent leaves the disk only for its own joined record, reported after every request received and stored before; the record is then durable exactly if this attempt wrote it or it was durable when reused, so over runs that reuse only durable records it always is |
| PreparationProtocol.AcknowledgedAfterRecord | scripts/prepare-command-dependencies.py:532-533 | over every run, a terminal is acknowledged only once its record is stored and its intent durably gone; the record is durable under the same exact condition |
| PreparationProtocol.CustodyThroughKills | scripts/prepare-command-dependencies.py:495-536 | through kills every single request stays under its intent, or is settled by a stored joined record reported after it; every acknowledged record is there |
| PreparationProtocol.CustodyThroughPowerLoss | scripts/prepare-command-dependencies.py:495-536 | the same of durable files through loss of power, if only durable records are reused |
| PreparationProtocol.PreparationCustody | scripts/prepare-command-dependencies.py:409-567 | both from an empty command root, over every run; and the first reuse of a record, followed to its end, keeps durable custody exactly if the record is durable |
| PreparationProtocol.ReusingUnsyncedLoses | scripts/prepare-command-dependencies.py:502-505 | reusing a record that is not durable ends, whatever was requested, with its terminal acknowledged and custody lost |
| PreparationProtocol.ReuseKeepsCustodyExactly | scripts/prepare-command-dependencies.py:502-533 | finishing by reuse keeps durable custody exactly if the record reused is durable |
| PreparationProtocol.ReusedRecordIsTaken | scripts/prepare-command-dependencies.py:502-511 | before the acknowledgement, loss of power takes a reused record that is not durable after its intent is gone, for every request nothing else durable settles |
| PreparationProtocol.CustodyCanBeLost | scripts/prepare-command-dependencies.py:502-511 | for every intent and receipt, a run from an empty root that loses the request with nothing acknowledged |
| PreparationProtocol.RepeatedRecovery | scripts/prepare-command-dependencies.py:495-536 | a recovery killed after any number of its file operations and repeated leaves the files of an uninterrupted one, exactly unless its record was half written |
| PreparationProtocol.PartialRecordBlocks | scripts/prepare-command-dependencies.py:409-411 | over every run that keeps power, while the guest says the same, a half-written record stays, its intent stays held, no request is made, and the terminal is never acknowledged |
| PreparationAttempts.QueryChangesNothing | scripts/prepare-command-dependencies.py:530-536 | over every run that keeps power, a query and all that follows it until something else begins change no file, request or acknowledgement |
| PreparationAttempts.RemovedInItsAttempt | scripts/prepare-command-dependencies.py:530-536 | over every run an intent leaves the disk, power kept, only in an attempt begun by its own preparation or by a recovery of it |
| PreparationAttempts.RequestedInItsAttempt | scripts/prepare-command-dependencies.py:545-563 | a request is received only in the attempt begun by its own preparation |
| PreparationAttempts.ReleasesExactly | scripts/prepare-command-dependencies.py:517-536 | a reconciliation told a terminal releases the intent exactly if it is a recovery of it, of this backend, told a valid joined terminal with no other record in the way; else the files stay |
| PreparationAttempts.RecoveryReleases | scripts/prepare-command-dependencies.py:525-536 | such a recovery has a run that ends acknowledged, the record stored and the intent gone |
| PreparationAttempts.PreparesExactly | scripts/prepare-command-dependencies.py:540-567 | a preparation begins exactly when no intent is on disk; with a receipt its record is stored and its intent gone, unless another record has its name |
| AptText.RunEndMoves | scripts/browser_acquisition.py:13-15 | exchanging an address in a text moves every run with it |
| AptText.WordsMove | scripts/browser_acquisition.py:41-46 | and every word |
| AptSources.StanzaUriSpans | scripts/browser_acquisition.py:16-50 | the line loop finds exactly the addresses of enabled stanzas |
| AptSources.ListUriSpans | scripts/browser_acquisition.py:12-15 | the pattern's matches are the addresses of the one-line format |
| AptSources.UriSpans | scripts/browser_acquisition.py:9-50 | the spans of a text by its suffix; any other suffix is refused |
| AptSources.SpansInOrder | scripts/browser_acquisition.py:9-50 | the spans are disjoint pieces of the text, in order |
| AptSources.ReplaceUris | scripts/browser_acquisition.py:53-58 | the loop from right to left is simultaneous substitution |
| AptSources.Rewrite | scripts/browser_acquisition.py:61-62 | rewriting substitutes in exactly the spans found |
| AptLaws.SpansMove | scripts/browser_acquisition.py:9-50 | exchanging one found address leaves the others, moved, in both formats |
| AptLaws.RewritingMapsSpans | scripts/browser_acquisition.py:53-62 | the spans of the rewritten text are the old ones mapped one by one |
| AptLaws.RewritingCommutesWithParsing | scripts/browser_acquisition.py:9-62 | the addresses of the rewritten text are the old ones renamed one by one, and nothing outside them has changed |
| AptLaws.RewritingTwice | scripts/browser_acquisition.py:61-62 | rewriting twice is rewriting once |
| AptLaws.NoAzureLeft | scripts/browser_acquisition.py:5-5 | no enabled address of the Azure mirror is left |
| AptMeaning.StanzaFinds | scripts/browser_acquisition.py:16-50 | by lines and positions alone: a span is found exactly if it is a word, before any comment, of a line of a URIs field whose stanza is not switched off by the one negative word of its Enabled lines |
| AptMeaning.ListFinds | scripts/browser_acquisition.py:12-15 | by positions alone: a span is found exactly if it is a token after deb or deb-src at the start of its line, past the options where options with a token after them can be read |
| AptMeaning.LinesExist | scripts/browser_acquisition.py:28-28 | every text has such lines |
| AptMeaning.RenamesExactly | scripts/browser_acquisition.py:53-58 | an address of the Azure mirror becomes that of the archive, slash and all, and no other is renamed |
| WriterModel.Workspace.Call | qualification/contact-workspace.ts:115-147 | a call becomes the tail of its file's chain and waits for the tail before |
| WriterModel.Workspace.Compare | qualification/contact-workspace.ts:119-122 | the first read meets the expectation or the write fails |
| WriterModel.Workspace.Recheck | qualification/contact-workspace.ts:133-135 | the second read equals the first or the stage is discarded |
| WriterModel.Workspace.Publish | qualification/contact-workspace.ts:139-139 | the rename replaces the file by the staged text |
| WriterModel.Workspace.Unlink | qualification/contact-workspace.ts:140-144 | a failed write removes its stage and leaves the file |
| WriterModel.Workspace.Leave | qualification/contact-workspace.ts:148-148 | the chain leaves the map only with its tail |
| WriterLaws.ChainedKept | qualification/contact-workspace.ts:115-148 | every step keeps the chain: turns in order, each waiting for the last, tails held |
| WriterLaws.HistoryKept | qualification/contact-workspace.ts:117-146 | every step keeps the history of changes true |
| WriterLaws.WritersAreSerialized | qualification/contact-workspace.ts:115-148 | in any interleaving no two critical sections on one path overlap, the map holds the last writer while one is queued or running, and is empty at rest |
| WriterLaws.CompareAndSwap | qualification/contact-workspace.ts:117-146 | every success, whatever it expects, had read twice what it expects with no other writer since the first read; the writers that succeeded, and no others, changed files, each once; stages are there only while needed or left by a failed removal |
| WriterLaws.ReplacesUnlessRaced | qualification/contact-workspace.ts:119-139 | a success replaces something its first read did not see exactly when the owner put it there between second read and rename |
| WriterLaws.EditIsOverwrittenExactly | qualification/contact-workspace.ts:131-139 | an edit after the first read, still standing at the rename, is overwritten unseen exactly when it falls after the second read and differs from what was read |
| WriterLaws.NoUpdateIsLost | qualification/contact-workspace.ts:131-135 | with broker writers alone every success replaced exactly the text it named, and the second read never differs |
| WriterLaws.RacedEditIsLost | qualification/contact-workspace.ts:131-139 | an edit between second read and rename is replaced, whatever it was |
| WriterLaws.RaceHappens | qualification/contact-workspace.ts:131-139 | and a run reaches that |
| WriterProgress.WaitsForEarlierOnly | qualification/contact-workspace.ts:114-115 | in every run a write can begin exactly when all earlier writes of its file are over |
| WriterProgress.WritesExactly | qualification/contact-workspace.ts:119-139 | a write that nothing disturbs succeeds exactly when the file is as its caller expects, and then the file holds its text; else it fails at once and changes nothing |
| WriterProgress.EditIsNoticedExactly | qualification/contact-workspace.ts:131-144 | an edit before the second read is noticed exactly when it changes the file, and then stays, with the stage removed |
| WriterProgress.SuccessWasExpected | qualification/contact-workspace.ts:121-122 | every success had found no file, or the very text, as its caller expected, and put its own text there |
| Codec.EncodeVarint | qualification/devin-native.ts:41-41 | the loop writes the varint of its number |
| Codec.DecodeInteger | qualification/devin-native.ts:47-47 | the loop reads up to eight bytes and rounds each sum |
| Codec.DecodeField | qualification/devin-native.ts:50-56 | one turn of the loop: which field, what it adds, where it ends |
| Codec.DecodeFields | qualification/devin-native.ts:45-59 | the loop reads field after field |
| CodecLaws.IntegerReads | qualification/devin-native.ts:47-47 | a varint of up to eight bytes is read wherever it lies |
| CodecLaws.IntegerShape | qualification/devin-native.ts:47-47 | and nothing else is read as an integer |
| CodecLaws.ReadsExactly | qualification/devin-native.ts:45-59 | the reader accepts exactly the sequences of whole fields, consumes every byte, and returns the length-delimited ones in order |
| CodecLaws.VarintRoundTrip | qualification/devin-native.ts:41-47 | a number reads back exactly when it fits eight bytes and is a double, as all below two to the fifty-third are |
| CodecLaws.FieldsRoundTrip | qualification/devin-native.ts:43-59 | any fields written, with skipped fields between them, read back as exactly those fields |
| CodecLaws.UnframingInvertsFraming | qualification/devin-native.ts:44-64 | a frame is accepted exactly when framing makes it without flags, and gives back its body |
| CodecLaws.FrameIs | qualification/devin-native.ts:44-44 | a frame is its flags, the length in four bytes, the highest first, and the body |
| RefInventory.ParseInventoryRows | scripts/release-ref-authority.ts:172-209 | the loop with its map accepts rows as specified, with the first error in order |
| RefInventory.ParseRemoteSnapshot | scripts/release-ref-authority.ts:221-258 | the loops find invalid refs, the requested object and the newest version as specified |
| RefLaws.ParsesExactly | scripts/release-ref-authority.ts:172-209 | the parser accepts exactly the printed form of strictly ordered, duplicate-free rows within its bounds |
| RefLaws.StableTagsAreCanonical | scripts/release-ref-authority.ts:147-156 | a tag has a version exactly when it is the version's printed form, so tags of versions are unique |
| RefLaws.CompareIsOrder | scripts/release-ref-authority.ts:158-170 | comparison is the total order by major, minor, patch |
| RefLaws.AcceptsTheGreatest | scripts/release-ref-authority.ts:221-258 | a snapshot is accepted exactly when it is canonical, all refs are valid tags, and the requested tag with its object is the one greatest version |
| RefLaws.OneTagIsAccepted | scripts/release-ref-authority.ts:238-251 | at most one tag of an inventory can be accepted |
| RefLaws.CombinedDetermines | scripts/release-ref-authority.ts:260-291 | equal combined inventories have equal main object, tag and tag object |
| RefLaws.GovernedExactly | scripts/release-ref-authority.ts:260-291 | a combined inventory is accepted exactly when its first part is the one row of the main branch, the tags are accepted and both are within bounds |
| RefLaws.LessExactly | scripts/release-ref-authority.ts:204-207 | refs are ordered by their UTF-16 code units |
| RefLaws.StableTagsAreValid | scripts/release-ref-authority.ts:133-142 | the tag of every version is a valid name, up to 128 characters |
| DraftModel.VerifyDraftAssets | scripts/publish-github-release.ts:320-349 | the loop returns exactly the missing sources, or fails on any other bytes |
| DraftModel.GitHub.CompleteDraftAssets | scripts/publish-github-release.ts:351-371 | completes exactly a recoverable draft, by one upload for each missing source in order; otherwise changes nothing |
| DraftLaws.VerifiedIsExact | scripts/publish-github-release.ts:275-349 | an exact draft that lacks nothing holds the sources, byte for byte, and nothing else |
| DraftLaws.PublishesExactly | scripts/publish-github-release.ts:432-441 | over any runs from any drafts, what is published is exactly the sources |
| DraftLaws.EachAssetOnce | scripts/publish-github-release.ts:424-491 | however often the run dies, if every first look shows the draft, one draft is created and no asset uploaded twice |
| DraftLaws.DraftsFromNothing | scripts/publish-github-release.ts:462-491 | from nothing, if every first look shows the draft: each source is uploaded exactly once by the time the release is published |
| DraftLaws.SecondDraftExactly | scripts/publish-github-release.ts:462-479 | a run about to look for the first time can create a draft beside another exactly when there is a draft and the list still shows none |
| DraftLaws.TwoDraftsStop | scripts/publish-github-release.ts:297-310 | over any run begun while the list shows two drafts and not answered with one by its tag, nothing is created, uploaded or published until the next run |
| DraftLaws.CallsNeedADecision | scripts/publish-github-release.ts:426-476 | a run makes a call only if its tag answered with a draft or it looked while the list showed at most one |
| DraftLaws.CallsExactly | scripts/publish-github-release.ts:426-491 | with the list as it is, a run can make a call exactly when it is answered with a draft to resume, or not found while the list shows none or one to resume |
| DraftLaws.DoubledFromNothing | scripts/publish-github-release.ts:462-479 | from nothing, two runs whose list still hides the draft create two |
| DraftLaws.LateListingPublishes | scripts/publish-github-release.ts:462-491 | from nothing, a run that publishes one of two drafts, the other listed only after its deciding look |
| DraftLaws.AnsweredPublishes | scripts/publish-github-release.ts:430-442 | from nothing, a run that publishes one of two listed drafts, answered with it by its tag |
| DraftLaws.ResumingPublishes | scripts/publish-github-release.ts:462-491 | a rerun that finds one recoverable draft uploads what is missing and publishes exactly the sources |
| DraftProgress.MissingExactly | scripts/publish-github-release.ts:320-349 | what is missing are the sources no asset is named after, in order, unless an asset is named after a source and is not it |
| DraftProgress.ResumableExactly | scripts/publish-github-release.ts:275-349 | a draft can be resumed exactly when its page is that of the release and its assets are, each once, sources byte for byte |
| DraftProgress.LooksExactly | scripts/publish-github-release.ts:472-479 | a new draft that the list does not show is looked for exactly six times |
| DraftProgress.ListedLateIsPublished | scripts/publish-github-release.ts:462-491 | from nothing a release is published, exactly its sources, whenever its draft is listed before the last look |
| ReleaseAssets.NativeAssetFilePairs | scripts/release-distribution-policy.ts:162-190 | the loop with its map pairs names as specified, with the first error in order |
| ReleaseLaws.PairsExactly | scripts/release-distribution-policy.ts:158-190 | pairing succeeds exactly when the names are, in some order, those of up to sixteen complete pairs of the version, and returns such pairs |
| ReleaseLaws.ArchiveExactly | scripts/release-distribution-policy.ts:168-173 | the archives of a version are those of a system and a machine, zip files for Windows and tarballs for others |
| ReleaseLaws.SemverExactly | scripts/release-distribution-policy.ts:6-6 | versions are three decimal numbers with points between them |
| ReleaseLaws.AssetsExactly | scripts/release-distribution-policy.ts:289-321 | a release's assets are accepted exactly when they are the tarball, SHA256SUMS and such pairs |
| ReleaseLaws.SplitsExactly | scripts/release-distribution-policy.ts:127-143 | a body splits into notes and identity exactly when it is the notes, a blank line and a well-formed identity, whatever the notes hold |
| ReleaseLaws.AssertsExactly | scripts/release-distribution-policy.ts:148-156 | for a well-formed identity a body is accepted exactly when it is notes, blank line, identity |
| ReleaseLaws.BuiltIsAccepted | scripts/release-distribution-policy.ts:117-156 | what is built is accepted |
| ReleaseLaws.IdentityIsWellFormed | scripts/release-distribution-policy.ts:104-114 | the record of every version is well-formed |

## Left out

- UTF-8 decoding, Unicode width tables, JSON and the regular-expression engine: the
  patterns that matter are small recognizers over decoded text. A byte-order mark that
  a decoder drops is not modelled.
- TerminalScreen.Terminal.constructor: at least one row and one column, as every caller
  gives it; the program also builds an empty screen, on which printing raises.
- TerminalScreen.Terminal.Resize: the same bound.
- Python's limit on the digits of an integer is not modelled.
- HeartbeatModel.StatusTable.Record: the HTTP action in front of the mutation, which
  answers 400 to a body it cannot parse, and its other refusals are not modelled; none
  of them reaches the store.
- Terminal `find` and `foreground` are simple reads of the grid.
- HTTP, `gh`, `npm`, `git`, `limactl`, Sigstore and file identity checks: each is an
  environment step with the outcomes the program distinguishes.
- Digests stand for what they hash.
- npm metadata, attestation and tarball checks beyond bytes, run and attempt.
- Heartbeat payload checks, `parseKeys`, the digest comparison loop, the public
  projection and the pruning of sample history: bounds checks and bounded reads. The
  client allows counters up to 2^63-1 and the server only up to 2^53-1; well-formedness
  of a message is a parameter.
- Review prompts, usage figures and the command line of a review.
- Plan records and their acknowledgement, the capture of inputs and the guest's own
  cache: the intent protocol starts after the plan.
- Whether an acknowledgement failed (`cleanupPending`): it changes no file.
- The contact workspace's path rules, its file limit across paths (which the program
  does not serialize) and `edit`, a read followed by a versioned write. A stage whose
  process died is not cleaned up by the program and never reused here.
- WriterModel.Workspace.Open: a stage is created empty and then filled; failures of
  either step are the same throw.
- The tool rows that `inventory` reads out of the decoded fields.
- RefInventory.ParseRemoteSnapshot: the local refs, annotated tags and ancestry checks
  that follow the inventory are not modelled.
- DraftModel.GitHub.CompleteDraftAssets: a run that is not interrupted; interruption
  between its steps is in the step machine. Waiting for a published release to become
  readable is not modelled.
- ReleaseAssets.NativeAssetFilePairs: ids, sizes, digests and URLs of assets are plain
  field checks and left out.
- Changelog rendering: notes are any text.
