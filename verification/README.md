# Verified model of the agents plane

The gateway drives coding agents (OpenCode, Claude Code, Codex and others), mirrors what they do
for phones and browsers, and answers for them. This project models the parts of that plane whose
correctness comes from state carried over many steps, and proves what they guarantee on every
input, every run or every interleaving. `dafny verify dfyconfig.toml` checks the whole project.

| area | files | the main theorem |
|---|---|---|
| event pump | `OpencodeEvents`, `DeltaCoalescer`, `DeliveredReads`, `EventPump`, `EventPumpMeaning`, `EventPumpRuns` | the pump that batches text deltas does what the one that does not does, up to merging adjacent deltas and publishing a joined read ahead of the batch that waits, and a delivered-message read is published if and only if nothing made it stale before it ended |
| permission menus | `Menus`, `MenuLines`, `MenuDetector`, `MenuProofs`, `MenuContext`, `MenuRoundTrip`, `MenuKeys`, `MenuFingerprint`, `MenuReadings`, `MenuTwins` | the detector answers exactly the menus a pane holds, from its last eighty lines alone; printing inverts it; the keystrokes it gives land on the answer; and exactly when two menus share a fingerprint |
| markdown scanners | `CodeSpans`, `MarkdownImages`, `ImageSources` | the splitter finds the one reading section 6.1 of CommonMark leaves; a source is listed if and only if a line outside fences shows it outside its code spans |
| remembered choices | `SessionDefaults`, `CatalogCache`, `CatalogOverlap` | a new session's defaults are a function of the history of choices; a write the memo skips would have changed nothing for reads one after another, and for overlapping ones exactly while later writes have not spoilt the noted list |
| ownership and tokens | `OwnerLookup`, `BoundedMaps`, `TokenRotation` | a request is answered by the recorded owner, else by the preferred manager that owns the session, under every interleaving; bounded maps refine one list; a running service keeps its token whatever fails |
| bounded walks | `DirectorySearch`, `Descendants` | an answer not marked truncated misses nothing that failing calls do not hide, on any cyclic graph, and one truncated for depth alone misses nothing within its depth |
| event ring | `EventRing` | a client never told it missed something has everything, once, in order |
| export budget | `ExportBudget` | all exported text and all decoding work are paid for out of one allowance |

`Wrappers`, `Text` and `Sorting` hold what they share.

Where the source updates state in place the model does too: `DeltaCoalescer`, `SessionRoutes`,
`MessageImages`, `ChoiceStore`, `CatalogStore`, `TokenStore`, `AgentEventLog` and `Allowance` are
classes, and the scans and walks are loops, each proved equal to a specification function or
against its promise outright. The event pump and the session request are machines over their
steps, so that every schedule is covered.

## Where the code does less than its comments say

Each of these is kept as the code has it, with a concrete input and the exact condition.

* A session request with no recorded owner may answer `Unknown` although its owner is attached:
  the first pass can finish between the read of `first_pass` after the probes and the one inside
  `await_first_pass` (`OwnerLookup.OwnerMissedInTheGap`, `OwnerLookup.UnknownExactlyInTheGap`).
* `record` can prune the folder it has just written when the clock has stepped back
  (`SessionDefaults.ClockStepsBack`, `SessionDefaults.OwnFolderKeptExactly`).
* Two overlapping catalog reads of one agent can leave the memo recognising a list whose write
  another has replaced (`CatalogOverlap.OverlappingReadsCanSkipAWrite`); which interleavings do is
  decided by `CatalogOverlap.SkipIsHarmlessExactly`, and none whose notes follow the writes in
  order do once they are all noted (`CatalogOverlap.OrderedNotesSkipHarmlessly`).
* `missed` computes `since + 1` on 64 bits, which wraps at the last number in a release build
  (`EventRing.MissedIsExact`).
* Two different menus can have one fingerprint, as on the two panes of
  `MenuTwins.SeparatorsConfuse`. A menu on a pane shares its fingerprint with a different menu on
  some pane exactly when its hashed text has another reading, which `MenuReadings.Readings`
  computes (`MenuTwins.TwinExactly`). Without a unit separator in its texts, that is when it has
  three answers or more and is still a menu with the last two fused
  (`MenuTwins.CleanTwinExactly`); when its question asks ahead of any mark, it is when it has
  three answers or more or a mark cuts one of its texts (`MenuTwins.AskingTwinExactly`).

The pump reorders one thing on purpose: a read joined while deltas wait is published ahead of
them. `EventPumpMeaning.BatchingPreservesMeaning` allows that and nothing else.

"The folder's last choice that is still offered" is read as the code reads it: only the last
choice is remembered, and it counts if it is still offered.

## Model

| member | source | states |
|---|---|---|
| OpencodeEvents.SameRunSameRow | src/agents/manager.rs:1812-1863 | deltas that may be merged append to the same timeline row |
| OpencodeEvents.MergedIsTheFirst | src/agents/manager.rs:123-127 | what a batch is handed on as is its first event, envelope included, with the joined text, and agrees with every piece on type, location and the rest of the payload |
| DeltaCoalescer.PayloadComparison | src/agents/manager.rs:66-83 | comparing sizes and the stripped object's keys decides exactly whether two payloads agree besides their text |
| DeltaCoalescer.JoinKeepsRun | src/agents/manager.rs:66-117 | a delta that may join extends the run of mergeable deltas, and their joined text stays within 8 KiB |
| DeltaCoalescer.DeltaCoalescer.CanMerge | src/agents/manager.rs:66-83 | true exactly when the event continues the waiting run and fits into 8 KiB with it |
| DeltaCoalescer.DeltaCoalescer.Push | src/agents/manager.rs:85-117 | the waiting batch grows by this delta, or is handed on whole once full; joining never moves the deadline, and what waits is below 8 KiB |
| DeltaCoalescer.DeltaCoalescer.Take | src/agents/manager.rs:123-127 | hands on one event that stands for the whole batch and leaves nothing waiting |
| DeltaCoalescer.DeltaCoalescer.Deadline | src/agents/manager.rs:119-121 | there is a deadline exactly while something waits |
| EventPump.AdvanceRefines | src/agents/manager.rs:921-1026 | every step of the batched pump keeps it exactly one waiting batch behind the unbatched pump, with the same reads; the results of reads joined meanwhile are out already |
| EventPump.RunRefines | src/agents/manager.rs:908-1029 | for every sequence of deadlines, joins, receptions, lags and the close, the batched pump is the unbatched one behind by what waits |
| EventPumpMeaning.MergedAppendsTheSame | src/agents/manager.rs:1812-1863 | a merged batch behind the results that went ahead of it leaves the timeline its deltas and those results leave as they came, if publishing a result leaves texts alone |
| EventPumpMeaning.BatchingPreservesMeaning | src/agents/manager.rs:908-1029 | after the close, what was handed on, resynced and published is the unbatched sequence with adjacent mergeable deltas joined into at most 8 KiB and the reads joined among them put first: nothing lost, nothing else reordered; the timelines are equal whatever else the handler does, if publishing a result leaves texts alone |
| EventPumpMeaning.WaitingBatchIsAllThatIsBehind | src/agents/manager.rs:955-963 | at any moment, flushing the waiting batch brings stream and timeline up to the unbatched ones |
| DeliveredReads.StartKeeps | src/agents/manager.rs:985-1009 | beginning a read keeps the bound of eight, one live read per session and message, and every earlier promise |
| DeliveredReads.InvalidateKeeps | src/agents/manager.rs:973-980 | dropping the reads an event makes stale keeps the same |
| DeliveredReads.CompleteKeeps | src/agents/manager.rs:935-953 | joining a task finishes its read once at most, and only while it is still live |
| EventPumpMeaning.RunKeepsReads | src/agents/manager.rs:915-1023 | over any run: at most eight tasks, a task behind every live read, no two live reads of one message, each read finished at most once |
| EventPumpMeaning.InvalidationWins | src/agents/manager.rs:935-980 | no read begun before a deletion, committed revert, matching cancel, resync or lag that affects it is committed afterwards |
| EventPumpMeaning.CutsAreLogged | src/agents/manager.rs:970-1023 | every such event and every lag received is an invalidation the previous row speaks of |
| EventPumpMeaning.PublishedAreLogged | src/agents/manager.rs:317-366 | the results published are the reads finished, in order, each for the session and message its read was begun for |
| EventPumpMeaning.PumpEvents | src/agents/manager.rs:908-1029 | the loop, with its coalescer, leaves exactly the run's stream, published results included, its reads, waiting batch and deadline |
| EventPumpMeaning.Receive | src/agents/manager.rs:959-1014 | one reception: flush what the event cannot join, then push it or deal with it |
| EventPumpRuns.DeadlineLeavesNothing | src/agents/manager.rs:922-933 | when every delta was received at least forty milliseconds ago, a deadline leaves nothing waiting and the stream alone stands for all the unbatched pump has put out |
| EventPumpRuns.DeadlineExactly | src/agents/manager.rs:85-121 | a deadline hands the waiting batch on if and only if the delta that began it came forty milliseconds before, whatever has joined since; otherwise it changes nothing |
| EventPumpRuns.RunWaitsAsOne | src/agents/manager.rs:66-117 | mergeable deltas received one after the other wait as one batch and put nothing out while together they are shorter than 8 KiB |
| EventPumpRuns.HandsOnWhatItReceives | src/agents/manager.rs:964-1026 | every event but an announcement of a delivered message is handed on, and a lag asks for a resync |
| EventPumpRuns.CannotRead | src/agents/manager.rs:984-1001 | a delivered message that is being read already changes nothing; without a task to spare, or in a session the mirror does not know, clients are asked to resync for that reason |
| EventPumpRuns.PublishedExactly | src/agents/manager.rs:934-1010 | a delivered message that can be read is: when its task is joined the result is published, for its own session and message, if and only if nothing received meanwhile was a lag, a stream resync, a deletion or committed revert of the session or a cancel of the message |
| Menus.ParsePrintedOption | src/agents/approvals.rs:471-509 | a printed option, indented and with or without a cursor glyph, is read back as exactly that number, text, cursor and decision |
| MenuLines.OptionExactly | src/agents/approvals.rs:471-509 | a line is read as an option if and only if it is written as that option: white space or a cursor glyph with a space, one or two digits, a full stop, a space and an answer |
| MenuLines.DecisionExactly | src/agents/approvals.rs:146-200 | an answer allows, allows for good, denies or neither, by its first word and by whether it says anywhere that it is for good; allowing words win |
| MenuLines.LowerAt | src/agents/approvals.rs:147 | ASCII capitals are lowered, character by character, and nothing else |
| MenuLines.HintExactly | src/agents/approvals.rs:511-519 | a hint is a line of at most 160 characters that says one of the key markers or opens with a key name |
| MenuLines.ToolExactly | src/agents/approvals.rs:637-655 | a line names a tool if and only if an identifier and an opening parenthesis come first on it, or first behind a transcript glyph |
| MenuDetector.DetectMenu | src/agents/approvals.rs:356-469 | the loops compute the detector's specification |
| MenuDetector.CollectOptions | src/agents/approvals.rs:383-397 | collects the whole run of options above the footer, and gives up exactly when it is longer than twelve |
| MenuDetector.CheckEnumerated | src/agents/approvals.rs:398-412 | accepts exactly 2 to 12 answers numbered from one with at most one cursor |
| MenuDetector.CollectContext | src/agents/approvals.rs:547-606 | the loops collect the framing lines above and below the question within the line and character budgets, and where the menu starts |
| MenuContext.ContextIsTheFraming | src/agents/approvals.rs:547-606 | the context is everything said, rules and blanks aside, from the nearest hard rule or below the nearest transcript line down to the answers, the question aside, cut at fourteen lines and at the line that reaches 800 characters |
| MenuDetector.FindTool | src/agents/approvals.rs:610-632 | the loops find that tool |
| MenuContext.ToolIsFirstOrNearest | src/agents/approvals.rs:610-632 | the tool is the first the context names, else the nearest named in the thirty lines above the framing, else none |
| MenuProofs.DetectSound | src/agents/approvals.rs:356-469 | whatever is detected is a menu in the pane: enumerated answers drawn last, the nearest line that reads like their question, at most four hints below |
| MenuProofs.DetectComplete | src/agents/approvals.rs:356-469 | every such menu is detected, as that menu |
| MenuProofs.QuestionUnique | src/agents/approvals.rs:415-435 | at most one line reads most like the question |
| MenuProofs.DetectedMenuIsWellFormed | src/agents/approvals.rs:356-469 | 2 to 12 answers numbered 1..n on the rows ending at `end`, at most one cursor, blanks and at most four hints below, `start` at or above the question, the question above the answers |
| MenuProofs.TailLocality | src/agents/approvals.rs:356-632 | lines above the last eighty change nothing but the row numbers, context, tool and fingerprint included |
| MenuProofs.TailLocalityOfPanes | src/agents/approvals.rs:356-632 | the same on lines of text |
| MenuRoundTrip.PrintedMenuIsReadBack | src/agents/approvals.rs:356-509 | under any lines, a printed question, its answers, cursor, hint and fingerprint come back exactly, each line with an indent of its own and blanks between the parts, whether the question asks or the answers say yes or no under lines that do not ask; a drawing is recognised if and only if it shows a cursor or a hint |
| MenuRoundTrip.PrintedMenuIsFramed | src/agents/approvals.rs:455-468 | context, tool and start of a printed menu are those that frame its question's row |
| MenuRoundTrip.PreviewIsReadBack | src/agents/approvals.rs:547-606 | the lines of a preview drawn under a hard rule and above the question come back as the context, and the rule's row as the start |
| MenuKeys.KeysFor | src/agents/approvals.rs:317-350 | keys exist exactly for the menu's numbers; one digit up to nine, past that arrows that carry the cursor from where it is drawn onto the option, then Enter |
| MenuFingerprint.FingerprintIdentifies | src/agents/approvals.rs:657-667 | menus without the unit separator that hash the same input have the same question and answers |
| MenuReadings.ReadingsExactly | src/agents/approvals.rs:657-667 | the computed readings of a hashed text are exactly the menus that hash it: 2 to 12 trimmed non-empty answers, and a question that asks or an answer that says yes or no |
| MenuTwins.DetectedIsMenuLike | src/agents/approvals.rs:356-509 | whatever is detected is such a menu, and its fingerprint is that of its texts |
| MenuTwins.MenuLikeIsDetected | src/agents/approvals.rs:356-509 | every such menu is detected on some pane |
| MenuTwins.TwinExactly | src/agents/approvals.rs:657-667 | a detected menu shares its fingerprint with a different detected menu if and only if its hashed text has another reading |
| MenuTwins.CleanTwinExactly | src/agents/approvals.rs:657-667 | without the unit separator in its texts: if and only if it has three answers or more and stays a menu when the last two are one |
| MenuTwins.AskingTwinExactly | src/agents/approvals.rs:657-667 | with a question that asks ahead of any mark: if and only if it has three answers or more, or the mark of answer 1, 2 or 3 stands in one of its texts with non-blank text where a piece would begin or end |
| MenuTwins.SeparatorsConfuse | src/agents/approvals.rs:657-667 | two panes of two answers each that are detected as different menus of one fingerprint |
| CodeSpans.SpansAreCodeSpans | src/agents/message_images.rs:562-599 | removed spans are opened and closed by whole backtick runs of one length, closed by the first such, and no run left in prose has a later run of its length |
| CodeSpans.CodeSpansAreUnique | src/agents/message_images.rs:560-599 | section 6.1 of CommonMark leaves no other reading of the line |
| CodeSpans.SplitterFollowsCommonMark | src/agents/message_images.rs:560-599 | a list of spans is what the splitter removes if and only if it is the code spans of the line |
| CodeSpans.SegmentsWeaveBack | src/agents/message_images.rs:562-599 | prose segments and removed spans in turn are the line |
| CodeSpans.ProseSegments | src/agents/message_images.rs:562-599 | the loop returns exactly the prose around the line's code spans |
| MarkdownImages.MarkdownImageSources | src/agents/message_images.rs:601-659 | the loop finds the sources its specification names |
| MarkdownImages.WrittenImageIsFound | src/agents/message_images.rs:601-659 | the next `![` that is not escaped, with `alt](dest` behind it, brackets and parentheses paired to any depth, escapes anywhere and blanks before the destination, is the next source found and the search goes on behind it |
| MarkdownImages.WrittenAngleImageIsFound | src/agents/message_images.rs:632-637 | the same for a destination in angle brackets, blanks and unpaired parentheses included |
| MarkdownImages.BangExactly | src/agents/message_images.rs:604-606 | the scan stops at the first `![` from where it is |
| MarkdownImages.EscapedImageIsSkipped | src/agents/message_images.rs:607-609 | an opening behind a backslash is passed over |
| MarkdownImages.SourcesAreWritten | src/agents/message_images.rs:601-659 | every source found stands behind an opening that is not escaped, a closing bracket and a parenthesis, with blanks at most, or an angle bracket, between |
| MarkdownImages.NothingOpens | src/agents/message_images.rs:604 | where nothing opens there is no source |
| ImageSources.FencedBlockIsTransparent | src/agents/message_images.rs:507-558 | a complete fenced block inserted where no fence is open leaves the sources as they were |
| ImageSources.UnclosedFenceHidesTheRest | src/agents/message_images.rs:518-543 | a fence nothing closes hides every line below it |
| ImageSources.MarkerExactly | src/agents/message_images.rs:545-558 | a fence line is at most three spaces, three or more of one fence character, and a rest that does not go on with it |
| ImageSources.ClosesExactly | src/agents/message_images.rs:525-531 | a line closes a fence if and only if it is a marker of that character, as long at least, with nothing but white space behind |
| ImageSources.FenceExactly | src/agents/message_images.rs:518-543 | a fence is open if and only if a line outside any fence opened it and none has closed it since |
| ImageSources.ListedExactly | src/agents/message_images.rs:507-543 | a source is listed if and only if some line outside fences shows it, in Markdown or HTML, outside its code spans |
| ImageSources.LinesGoInOrder | src/agents/message_images.rs:507-543 | sources go in the order of their lines |
| ImageSources.SegmentsGoInOrder | src/agents/message_images.rs:507-543 | and of the segments within a line |
| ImageSources.DedupKeepsFirstOccurrences | src/agents/message_images.rs:513-515 | no source twice, each where it first occurred |
| ImageSources.FindImageSources | src/agents/message_images.rs:507-543 | the loop over lines yields the first occurrences of the sources of the prose lines |
| SessionDefaults.ChoiceStore.Record | src/agents/session_defaults.rs:54-111 | one transaction: nothing, or the folder's and the computer's rows written and all but some 64 newest folders of the agent dropped |
| SessionDefaults.KeepNewest | src/agents/session_defaults.rs:98-103 | 64 folders at most, none older than one dropped |
| SessionDefaults.RowIsItsHistory | src/agents/session_defaults.rs:54-111 | a row holds exactly the last model and the last mode chosen for it since it last came to be |
| SessionDefaults.ComputerRowIsWholeHistory | src/agents/session_defaults.rs:54-111 | the computer-wide row is never pruned and is the whole history's last choices |
| SessionDefaults.FoldersAreBounded | src/agents/session_defaults.rs:98-103 | at most 64 folders of an agent after any run |
| SessionDefaults.OwnFolderKeptExactly | src/agents/session_defaults.rs:69-103 | a call's own folder survives every choice of the newest if and only if fewer than 64 other folders carry a time as late |
| SessionDefaults.OwnFolderIsNeverPruned | src/agents/session_defaults.rs:69-103 | with increasing times no call prunes its own folder |
| SessionDefaults.ClockStepsBack | src/agents/session_defaults.rs:69-103 | a run of 64 choices at time 10 and one at time 5 after which the last one's folder is gone |
| SessionDefaults.DefaultsFollowHistory | src/agents/session_defaults.rs:116-198 | after any run the model is the folder's last choice since its row came to be, if still offered, else the computer's, else the agent's own; without a folder, the computer's first; the mode by the same rule on its own, if a session may start in it |
| SessionDefaults.PickedMode | src/agents/session_defaults.rs:190-197 | for any remembered choices and catalog: the mode is the first remembered one that the catalog offers and that is not `bypassPermissions`, `auto` or `yolo`, and the catalog's own if and only if there is none |
| SessionDefaults.PickedModel | src/agents/session_defaults.rs:185-189 | the model is the first remembered one that the catalog lists, its tier kept exactly when it is among the listed model's, and the catalog's own if there is none |
| SessionDefaults.OfferedExactly | src/agents/session_defaults.rs:168-184 | a choice counts if and only if its provider and model are listed; its tier is kept exactly when the first such model lists it |
| CatalogCache.CatalogStore.WithCachedModels | src/agents/session_defaults.rs:240-304 | the table, the memo and the list shown after one read |
| CatalogCache.MergeVariants | src/agents/session_defaults.rs:308-318 | a model listed without tiers takes those stored for it, all others stay |
| CatalogCache.MergeTwice | src/agents/session_defaults.rs:308-318 | merging a list over its own merge changes nothing |
| CatalogCache.RowIsTheLastList | src/agents/session_defaults.rs:250-304 | after any run of reads, the row of an agent is of the last list the database took, written or recognised: its version and models in order, with their own tiers wherever they have any |
| CatalogCache.EmptyListShowsTheStored | src/agents/session_defaults.rs:246-256 | an agent that lists nothing is shown the last list its version had stored, and nothing of another version; one that lists something is shown that |
| CatalogCache.UnchangedListIsSkipped | src/agents/session_defaults.rs:258-267 | a list that has been stored is recognised and not written again while only other agents are read |
| CatalogCache.SkippedWriteWouldChangeNothing | src/agents/session_defaults.rs:258-304 | after any run of reads one after another, and restarts, a write the memo recognises would store what is stored |
| CatalogCache.TiersPersist | src/agents/session_defaults.rs:271-318 | tiers once shown and stored stay non-empty while later lists of that version name the model, through failed writes and restarts |
| CatalogCache.TiersNeverCrossVersions | src/agents/session_defaults.rs:236-295 | stored tiers were shown by the version they are stored for |
| CatalogOverlap.OrderedNotesSkipHarmlessly | src/agents/session_defaults.rs:258-304 | for every interleaving of looks, writes and notes of any reads in which an agent's notes follow its writes in order, skipping is harmless whenever none of its writes waits to be noted |
| CatalogOverlap.SkipIsHarmlessExactly | src/agents/session_defaults.rs:258-304 | for every interleaving, skipping is harmless if and only if the agent's later writes left the noted list's models and the tiers it showed in place |
| CatalogOverlap.RowIsItsWrites | src/agents/session_defaults.rs:271-318 | the row holds the last list written and, for each model, the last tiers shown since a write of another version or without the model |
| CatalogOverlap.NoteOfLastWrite | src/agents/session_defaults.rs:296-301 | while the write a note is of is the agent's last, skipping is harmless |
| CatalogOverlap.OverlappingReadsCanSkipAWrite | src/agents/session_defaults.rs:258-304 | two overlapping reads noted in the other order leave a memo that skips a write that would change the row, with nothing under way |
| CatalogOverlap.SkipBetweenWriteAndNote | src/agents/session_defaults.rs:258-304 | noted in order, so does a look between the second write and its note |
| BoundedMaps.SessionRoutes.Insert | src/agents/runtime.rs:153-170 | the map and its queue are one list: an overwrite keeps its place, a new key goes last, the first goes when it is full |
| BoundedMaps.SessionRoutes.Remove | src/agents/runtime.rs:172-177 | removes the key from map and queue and nothing else |
| BoundedMaps.MessageImages.RememberRoot | src/agents/message_images.rs:83-95 | the session roots refine the same list, bounded by the queue; no root changes nothing |
| BoundedMaps.MessageImages.RememberServed | src/agents/message_images.rs:97-109 | so do the served images |
| BoundedMaps.PutLooksUp | src/agents/runtime.rs:153-170 | an insert changes the answer for its own key and, when a new key meets a full list, for the earliest inserted one |
| BoundedMaps.RemovedLooksUp | src/agents/runtime.rs:172-177 | a removal changes the answer for its own key alone |
| BoundedMaps.RunIsBoundedAndLatest | src/agents/runtime.rs:147-177 | after any run: within the bound, no key twice, retained keys have their latest value, the key just inserted is retained |
| BoundedMaps.OldestFirst | src/agents/runtime.rs:153-177 | after any run the entries stand in the order their keys came in, overwrites aside, so the one a full list loses has been there longest |
| OwnerLookup.RecordedOwnerIsAuthoritative | src/agents/runtime.rs:907-932 | once the route read names a known agent, no interleaving probes, returns another agent or answers Unknown |
| OwnerLookup.RecordedOwnerIsFound | src/agents/runtime.rs:907-965 | if the first pass attaches that agent, keeps it and ends before the wait does, the only answer there can be is its manager |
| OwnerLookup.RequestEnds | src/agents/runtime.rs:916-1011 | once the first pass is over, fourteen steps of its own bring any request to its answer |
| OwnerLookup.RecordedOwnerComes | src/agents/runtime.rs:907-965 | so the recorded owner's manager is returned |
| OwnerLookup.HeldIsFound | src/agents/runtime.rs:907-1000 | a manager held for the recorded owner, attached under its name or else as the primary, is what the look at it finds |
| OwnerLookup.ProbeFindsFirst | src/agents/runtime.rs:971-1011 | a probe finds the most preferred attached manager whose agent says in time that it owns the session, the primary standing in when no known agent is attached, and nobody if and only if there is none |
| OwnerLookup.ProbeAnswersWithTheOwner | src/agents/runtime.rs:971-1021 | over every interleaving, a probe answers exactly that of the managers attached when it took the list, records the route to its kind, and changes nothing when there is none |
| OwnerLookup.FoundOwnsTheSession | src/agents/runtime.rs:907-1011 | over every interleaving in which nobody else records a route for the session, the manager found recognises it |
| OwnerLookup.AnswerHasReason | src/agents/runtime.rs:907-1011 | a manager found without a probe was held for an agent at the step that answered, and an owner reported as not attached was held by nobody then |
| OwnerLookup.UnknownAfterVainProbe | src/agents/runtime.rs:933-1011 | a request never answers Unknown without a probe that found nobody |
| OwnerLookup.RequestTouchesItsRoute | src/agents/runtime.rs:990-1021 | a request changes nothing of the runtime but the route of its session, and that at a probe |
| OwnerLookup.UnknownExactlyInTheGap | src/agents/runtime.rs:933-1011 | with no recorded owner and the same pass, the answer is Unknown if and only if the pass ended between two particular reads |
| OwnerLookup.OwnerMissedInTheGap | src/agents/runtime.rs:933-965 | a run in which it does |
| TokenRotation.TokenStore.IssueAgentEnvFor | src/agents/runtime.rs:2088-2112 | mints one token and returns exactly the agent's earlier live ones; a failed listing mints none |
| TokenRotation.TokenStore.SettleAgentTokens | src/agents/runtime.rs:2059-2077 | revokes the earlier tokens after a start that worked, the minted one after one that did not, stuck ones aside, as far as the gateway gets |
| TokenRotation.TokenStore.LaunchWithMcp | src/agents/runtime.rs:2021-2039 | what one start leaves live and which token its service has, whatever fails in it and between whichever revocations the gateway stops |
| TokenRotation.SettledStart | src/agents/runtime.rs:2021-2077 | after a settled start with its revocations done: exactly the started service's token, else exactly what was live; other bindings untouched |
| TokenRotation.AnyStart | src/agents/runtime.rs:2021-2112 | whatever befalls a start, it adds at most its own token, takes away the agent's earlier ones only if the service came up and the minted one if and only if it did not, the gateway got that far and the token can be revoked, and touches no other binding |
| TokenRotation.RunningServiceKeepsItsToken | src/agents/runtime.rs:2021-2112 | whatever fails, is cut off between any two revocations or cannot be revoked, the token of the service that came up, settled or not, stays live until a later start of its agent brings one up with another |
| TokenRotation.SuccessfulStartRecovers | src/agents/runtime.rs:2021-2112 | one successful start removes whatever starts cut off part way left |
| TokenRotation.SettledStartsLeaveOneToken | src/agents/runtime.rs:2021-2112 | while an agent's starts settle it has the token in use and no other |
| DirectorySearch.Search | src/agents/directories.rs:68-166 | ends on any graph of links, lists no directory twice, reads at most 10,000 entries, answers at most 30 distinct matches; marks truncation only for a reason met; whatever calls fail, an untruncated answer holds every match that lies past no failing call, at a path no longer than the shortest such, and one truncated for depth alone holds those nine levels down, both sorted; however it ends, the directories before the last are fully listed |
| DirectorySearch.ReadEntries | src/agents/directories.rs:99-161 | one directory's entries, as far as they can be read: each match a hit, each directory visited, blocked or queued one level deeper, unless a bound or the clock stopped it |
| DirectorySearch.ReachableIsVisited | src/agents/directories.rs:76-98 | once nothing waits, everything reachable through eligible names and past no failing call in eight steps has been visited no deeper than that, and in any number of steps when nothing lay too deep |
| DirectorySearch.DealtIsComplete | src/agents/directories.rs:68-166 | then every matching directory within nine levels that lies past no failing call is among the hits, and every one at all when nothing lay too deep |
| DirectorySearch.AllInSight | src/agents/directories.rs:68-166 | when no call fails, every match lies past no failing call, so the rows above speak of all of them |
| DirectorySearch.RenderedIsInjective | src/agents/directories.rs:148-152 | different paths are different as text |
| Descendants.ListDescendants | src/agents/routes.rs:2756-2835 | distinct sessions, never the root, at most 500, newest first, each within eight steps and, dates and all, as the first agent that lists it under a parent fewer than eight steps away says; cut exactly when more than 500 are in reach; otherwise all within eight steps, truncated exactly when one takes all eight; untruncated is exactly everything reachable; when it is an error |
| Descendants.Walk | src/agents/routes.rs:2773-2824 | the same of the walk before sorting, and which failed listings it meets |
| Descendants.ThoroughNext | src/agents/routes.rs:2780-2818 | a level walked to its end leaves asked about all but the next frontier, which is what takes one step more to reach |
| Descendants.ExhaustedIsEverything | src/agents/routes.rs:2779-2824 | with an empty frontier everything reachable at any depth has been seen |
| Descendants.CappedIsTooMany | src/agents/routes.rs:2805-2808 | missing a session at the bound means more than 500 are in reach, and having all means there are not |
| EventRing.AgentEventLog.Record | src/agents/agent_events.rs:93-117 | the ring stays the newest 200 of the session's whole history, numbered from one |
| EventRing.AgentEventLog.Since | src/agents/agent_events.rs:121-130 | exactly the retained events after the given number, in order |
| EventRing.AgentEventLog.LatestSeq | src/agents/agent_events.rs:135-139 | how many events the session ever recorded, which is where a client resumes |
| EventRing.AgentEventLog.Missed | src/agents/agent_events.rs:147-159 | what the ring answers, the 64-bit wrap included |
| EventRing.MissedIsExact | src/agents/agent_events.rs:147-159 | `missed(k)` holds exactly when an event after k is absent from `since(k)`, if and only if k is not the last 64-bit number or nothing was recorded |
| EventRing.RetainedAreContiguous | src/agents/agent_events.rs:93-117 | retained numbers are contiguous up to the latest |
| EventRing.UnmissedClientHasEverything | src/agents/session_routes.rs:222-248 | a client that resumes from `next_since` and was never told `missed` has every event since its start exactly once, in order, among records of any sessions |
| ExportBudget.Allowance.ImageUri | src/agents/attachment_images.rs:59-116 | the answer and what is left, for every source and every state of the file |
| ExportBudget.ImageTextIsExportedAsIs | src/agents/attachment_images.rs:64-77 | a data URI of an image comes back unchanged exactly when the allowance covers the attempt and its text |
| ExportBudget.ImageFileIsExported | src/agents/attachment_images.rs:78-116 | an image file is exported exactly when the allowance covers the attempt and its base64 length |
| ExportBudget.Encode | src/agents/attachment_images.rs:114-115 | base64 of section 4 of RFC 4648 is ASCII and four symbols for every three bytes begun |
| ExportBudget.EncodedIsDecoded | src/agents/attachment_images.rs:75-77 | decoding undoes encoding |
| ExportBudget.DecodedIsEncoded | src/agents/attachment_images.rs:75-77 | nothing but the encoding of some bytes decodes: padding in full, no bits left over |
| ExportBudget.ExportedIsTheImage | src/agents/attachment_images.rs:59-116 | whatever is exported is, in full, the image the source holds: of a data URI whose header names an image in base64, or of a file at an absolute path that has not grown, of 1 byte to 2 MiB that is sniffed as an image |
| ExportBudget.CallIsPaidFor | src/agents/attachment_images.rs:59-116 | one call's text, its decoding or reading work, a read that failed part way included, and its attempt each fit what it spent, on success or failure |
| ExportBudget.AllowanceBoundsEverything | src/agents/attachment_images.rs:17-116 | over any calls the exported text, and the work, total at most what was spent, and at most budget/32 calls get past the first reservation |

## Left out

- The order in which `pump_events` prefers ready events (`biased`): every order is allowed, so the theorems hold for the biased one.
- Cancellation of the whole pump, which drops the waiting batch on purpose.
- What `handle_raw_event` does besides appending deltas is a parameter, and so is whether the mirror accepts a read's result.
- EventPumpMeaning.BatchingPreservesMeaning: timelines are texts by row and a rest the handler is free in; that publishing the result of a read leaves the texts alone is its condition, since the mirror is not part of this model.
- MenuFingerprint.FingerprintIdentifies: speaks of the bytes hashed, the hash being taken as free of collisions.
- Splitting text into lines, and Unicode case folding and white space beyond the characters `Text` names; the detector and the scanners work on sequences of lines.
- The HTML image scanner is a parameter of `ImageSources`; resolving the sources on disk, `file:` references and the cap of 32 images per part are not modelled.
- CodeSpans.SplitterFollowsCommonMark: is about one line, as in the code, where a code span never crosses lines and an opening backtick fence may have backticks in its info string.
- EventRing.AgentEventLog.Record: does not model the counter reaching 2^64; `Missed` models the wrap of a release build, where a debug build would stop.
- DirectorySearch.Search: takes the query trimmed and in lower case and lower-casing as a parameter, and a fixed graph of directories whose names are text; a call fails or is slow by the path or directory it is about, as no search makes one twice.
- Descendants.ListDescendants: takes what each agent lists as fixed for the length of the walk, and leaves out that it records a route for every session listed.
- CatalogCache.CatalogStore.WithCachedModels: is one read alone; the steps of overlapping reads are the machine of `CatalogOverlap`.
- ExportBudget.Allowance.ImageUri: that image type names have at most 19 bytes is a condition of the length bounds; sniffing the type and reading the file are answers of the world.
- TokenRotation.TokenStore.LaunchWithMcp: tokens are numbers that are never issued twice; expiry, hashing and the token text are left out. A service that comes up although its start was reported failed counts as having no token, as the code revokes it.
- Agreement of the in-memory routes with the SQLite route table, which orders by last change and need not hold the same rows.
- HTTP handlers, authentication, SQLite, processes and clocks: their outcomes are parameters or chosen freely.
- Discovery lists, feature tables, auto-approval, terminal runtimes, the command line and display text: fixed tables and single branches.
