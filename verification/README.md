# Aplexica: five cores, modelled and proved

Aplexica is a local daemon that keeps the memories, skills, tools and conversations of several coding agents in one
append-only store and synchronises them between devices. This project models the five places where its daemon and
command line keep real state or run real algorithms, and proves what each of them is for.

1. **The newest-first feeds** (`FeedOrder`, `EventReader`, `EventFeed`, `FeedPaging`, `FeedFollow`, `FeedLoss`,
   `AgentFeed`, `AgentFeedExact`). The dashboard's event feed is a bounded merge of many logs that stops reading early and pages
   backward by a millisecond cursor. It is proved to refine "read every log, sort, cut", and its pages to add up to the
   whole feed; `FeedLoss` says what is lost when a log is out of time order. The agent-detail feed is a second merge, with truncation between reads and its own stop rule.
2. **The conversation repair** (`ReplayBlocks`, `ReplayFacts`, `ReplayAgain`, `Transcript`, `KeepMask`, `CollapseEvents`,
   `RepairAgain`, `RepairSweep`). Three passes over a boolean mask remove replayed blocks and echoes; the mask is projected onto turns
   and onto events, and the sweep over the store sits behind a memoized peer guard.
3. **The two-file atomic replace** (`BackupMachine`, `BackupSafety`, `BackupTheorems`, `BackupRuns`, `BackupRoot`). A backup bundle
   and its signature are swapped in under a recovery journal. Every rename, remove and journal write is one atomic step
   and a crash may fall between any two, during the write and during any number of recoveries. `BackupRoot` is the code
   in its own imperative form, proved to run that machine for every number of steps after which the power fails.
4. **The remote side** (`RemoteBackfill`, `RemoteDriver`, `RemoteSafety` for the backfill driver with its backoff and
   wedge alarm; `InboundAck`, `InboxState`, `DurableInbound`, `InboundSchedule` for the durable inbound handler;
   `CloudIdentity` for the device-identity lock). The relay, the importer, the disk and the process are adversaries.
5. **Branch renames** (`BranchIndex`, `BranchRename`, `BranchHistory`). The branch index is edited in place by the
   rename command and rebuilt from the immutable log plus the alias map by every reader.

Event identities, digests, cursor tokens and device ids are opaque values compared for equality. Times are integers;
a zero time is the Go zero time. A clock, a relay answer, an importer outcome, an operation's failure and a peer query
are parameters.

## What the code's own documentation says otherwise

The model follows the code; these are the places where a comment promises more.

- `internal/acf/store.go:1708-1714` and the feed's callers treat the header reader as returning the newest events. It
  scans by position from the end of the file, so it does so exactly for logs appended in timestamp order
  (`EventReader.SoundReaderIffChronological`). An event the feed misses this way is at or above the cursor of the page
  that misses it, so no later page shows it (`FeedLoss.LostForGood`, `FeedLoss.PagesCompleteIff`); when every event has
  its own millisecond, any log out of time order has such a request (`FeedLoss.LoseEvent`).
- `cmd/aplexica/cmd_daemon_web_api.go:584-587` says an artifact's `UpdatedAt` bounds every event of its log. Side-branch
  events do not move it (the event feed knows this, line 798), so the agent feed can miss a newer event
  (`AgentFeed.SideBranchEventMissed`); `AgentFeedExact.FeedRightForEveryLimitIff` says exactly for which candidates it
  shows the right events at every limit.
- The feed's cursor treats zero or less as "newest", so paging ends exactly when every event's time is positive
  (`FeedPaging.PagingEndsIff`); one event in the first millisecond of the epoch is answered for ever
  (`FeedPaging.EndlessFeed`).
- `cmd/aplexica/cmd_repair_conversation.go:572-574` calls the block scan idempotent. It is not
  (`ReplayFacts.ScanNotIdempotent`), and neither is the trailing-echo pass (`KeepMask.TrailingPassNotIdempotent`). Both
  have an exact condition: what still repeats after one scan bridges a block that scan dropped
  (`ReplayAgain.SecondScanQuietIff`), and a second trailing pass drops a turn only when the last two are both users'
  repeats (`KeepMask.TrailingPassQuietIff`). So a second repair command may change the conversation again
  (`RepairAgain.SecondRepairDrops`, and exactly when in `RepairAgain.SecondRepairQuietIff`), but repairing again and
  again settles (`RepairAgain.RepairsSettle`).
- Recovery from a `prepared` journal is meant to restore the old pair. It does so exactly when each old file has been
  moved aside (`BackupTheorems.RollbackRestoresIff`), is not restartable once it has put a file back (every backup that
  replaces a file has a schedule of two crashes that loses the old data, `BackupRuns.ReplacedDataCanBeLost`), and a rollback whose journal already reads `audit-committed` can be
  cleaned up only if the directory happens to hold the new digests (`BackupTheorems.UndoneJournalFinishesIff`): a
  complete rollback interrupted there is stuck for ever exactly when the old bytes differ from the new ones
  (`BackupTheorems.RestoredPairStuckIff`), and every backup has a schedule that comes to that
  (`BackupRuns.RestoredPairReached`, `BackupRuns.BackupCanBeStuck`).
- An importer that answers with fewer outcomes than events is read as "nothing to retry" by the driver
  (`RemoteSafety.SilentImporterIsPassed`). The inbound handler then answers without a retryable outcome and without
  committing; with no other trouble it does so exactly when the importer's outcomes are too few or too many and none of
  them would be retried (`DurableInbound.Host.OnInboundV2`, with `InboundSchedule.ShortAnswer` as a witness).
- The inbound stream can stop for good in two ways. Two deliveries with different ids that end at one mark, both
  completed, bind it there, and it never accepts another delivery (`InboundSchedule.CompletedAgain` is such a stream).
  An inbox full of deliveries that were never applied clogs it: nothing in it can be pruned or follows the cursor, and
  nothing new is admitted (`InboundSchedule.FillTheInbox`). These are the only ways: a stream that is neither can always
  be brought to accept a delivery past its cursor (`InboundSchedule.GoOn`), and one that is either never again accepts
  one (`InboundSchedule.Serve`).
- `cmd/aplexica/cmd_daemon.go:3939-3944` says the lock keeps the identity from going back. It does for pairings issued
  one after another; a pairing writes its credential before it takes the lock, so two that overlap can apply theirs in
  the wrong order (`CloudIdentity.OverlappingPairingsGoBack`, and exactly when in `CloudIdentity.NeverLoweredIffInOrder`).
- `cmd/aplexica/cmd_branch.go:194-198` says a rename survives every rebuild. The rebuild looks a merge's source up among
  display names (`internal/acf/branch.go:177-183`), so a merged branch loses its merge mark when it is renamed
  (`BranchHistory.RenamedMergeIsForgotten`); `BranchRename.EditAgreesIff` says exactly when edit and rebuild agree.
- `cmd/aplexica/cmd_branch.go:129-154` reports a created branch whatever its name. Under the log name of a renamed branch
  no branch of that name appears: the event is added to the renamed one (`BranchHistory.CreatedNameIsFolded`, and exactly
  when in `BranchHistory.CreateShowsIff`).

## Model

| member | source | states |
|---|---|---|
| EventReader.ReadRecentEventHeaders | internal/acf/store.go:1715-1772 | the backward scan with its soft limit returns the tail of the admitted headers that starts at the first header of the millisecond group in which the limit falls, in append order |
| EventReader.ReadIsTight | internal/acf/store.go:1708-1772 | on any log and for any cursor the read starts at the end of another millisecond group and holds at least the limit, and whatever it holds beyond the limit shares the millisecond in which the limit falls |
| EventReader.ChronologicalRead | internal/acf/store.go:1715-1772 | on a log appended in time order, whatever is left out is strictly older than everything returned, and then at least `limit` headers were returned |
| EventReader.SoundReaderIffChronological | internal/acf/store.go:1708-1772 | for every cursor and limit the reader returns the newest complete groups if and only if the log is in time order |
| EventReader.OutOfOrderLoss | internal/acf/store.go:1758-1760 | any event appended just before an older one is lost to a read whose limit falls between them |
| EventFeed.SortEventSeqRecs | cmd/aplexica/cmd_daemon_web_api.go:884-894 | the result is a permutation in feed order: later millisecond first, then larger event id |
| EventFeed.EventPageFromRecs | cmd/aplexica/cmd_daemon_web_api.go:896-921 | the page is a prefix of at least min(limit, total) records, cut only between two different milliseconds and extended only over the millisecond at the limit; the next cursor is its last millisecond, or the old cursor when empty |
| EventFeed.ReadWindow | cmd/aplexica/cmd_daemon_web_api.go:860-870 | one log read with the limit in force loses only records that have `limit` newer ones in what was read |
| EventFeed.WindowGrown | cmd/aplexica/cmd_daemon_web_api.go:852-855 | growing the limit over the boundary millisecond keeps that true of the larger limit |
| EventFeed.UnreadAreOlder | cmd/aplexica/cmd_daemon_web_api.go:856-858 | stopping at the first log whose bound is below the boundary loses only records with `targetLimit` newer ones already held |
| EventFeed.MaterializePage | cmd/aplexica/cmd_daemon_web_api.go:837-875 | for any logs, cursor and limit: if bounds hold and logs are in time order, the page is record for record the admitted events at or above its last millisecond, in feed order, and at least min(limit, total) of them, although logs were read under smaller limits and the rest never; over disordered logs it still holds only admitted events, in feed order, at least min(limit, total) of them; the page goes no deeper than it must: of the first logs that together hold `limit` events, fewer than `limit` lie above its cursor; and when no two events share a millisecond it has exactly min(limit, total) of them, all from one read of each log under `limit` |
| FeedPaging.UpperBoundsLog | cmd/aplexica/cmd_daemon_web_api.go:778-800 | the bound chosen for an artifact (update time, or log modification time when side branches exist) is at or above every event of its log |
| FeedPaging.UpperIsTight | cmd/aplexica/cmd_daemon_web_api.go:778-800 | and is the update time itself unless side branches or an unset time leave only the log's modification time |
| FeedPaging.EventRefs | cmd/aplexica/cmd_daemon_web_api.go:768-826 | every artifact once with its bound, in the order of the source: largest bound, then largest kind and id |
| FeedPaging.RefsUnique | cmd/aplexica/cmd_daemon_web_api.go:816-826 | when no two artifacts share bound, kind and id, that order is one and the same however they are listed |
| FeedPaging.FeedIsLogged | cmd/aplexica/cmd_daemon_web_api.go:837-921 | a record is in the feed if and only if some artifact of the store holds an event with its millisecond and event id, under that artifact's id |
| FeedPaging.Backfill | cmd/aplexica/cmd_daemon_web_api.go:725-759 | a request with a non-positive limit is empty and keeps its cursor; any other answers the exact page of its cursor, and one no deeper than it must be, whenever the store's metadata is true; without ties it has min(limit, total) events over any store |
| FeedPaging.PagesAreTheFeed | cmd/aplexica/cmd_daemon_web_api.go:837-921 | any sequence of exact pages, each answering the cursor of the one before under a limit of its own, up to an empty one, gives every event of every log exactly once, in feed order |
| FeedPaging.PagesAreTheSortedFeed | cmd/aplexica/cmd_daemon_web_api.go:837-921 | with distinct event ids the concatenated pages equal the sorted feed itself |
| FeedPaging.MillisecondsStayTogether | cmd/aplexica/cmd_daemon_web_api.go:901-909 | every event of an earlier page is strictly newer than every event of a later one |
| FeedPaging.PagingEndsIff | cmd/aplexica/cmd_daemon_web_api.go:837-921 | a run of more pages than there are events contains an empty page if and only if every event's time is positive |
| FeedPaging.EndlessFeed | cmd/aplexica/cmd_daemon_web_api.go:837-921 | over a store of one event at millisecond zero the pages of a run, however long and under any limits, are exact if and only if each is the page of that event, whose cursor is zero |
| FeedFollow.PagePermuted | cmd/aplexica/cmd_daemon_web_api.go:816-826 | the exact page of a cursor does not depend on the order in which the artifacts are listed |
| FeedFollow.FollowCursor | cmd/aplexica/cmd_daemon_web_api.go:725-759 | request after request over an unchanged store, with a limit for each and the artifacts listed in any order each time, the run ends and has gathered every event once, in feed order |
| FeedLoss.LostForGood | cmd/aplexica/cmd_daemon_web_api.go:837-921 | over any logs, once the cursor is at or below an event no later page holds it |
| FeedLoss.PagesCompleteIff | cmd/aplexica/cmd_daemon_web_api.go:837-921 | over any logs, pages up to an empty one add up to every event if and only if each of them is the exact page of its cursor: no later page makes up for an earlier one |
| FeedLoss.LoseEvent | internal/acf/store.go:1758-1760 | in any store whose events have their own positive milliseconds, a log out of time order has a request that misses an event below its cursor and at or above the cursor it returns |
| AgentFeed.RecentAgentEvents | cmd/aplexica/cmd_daemon_web_api.go:569-683 | from the stored artifacts: attribution, candidates by update time, and newest first the `limit` newest events of exactly the logs read, although it truncates before each read; when update times bound the logs, the `limit` newest of every attributed log; no event is shown of an artifact the agent neither owns nor receives through an open gate |
| AgentFeed.AttributedPositions | cmd/aplexica/cmd_daemon_web_api.go:601-613 | the candidates are, each once and in listing order, exactly the artifacts the agent owns and, while its gate is open, those it receives |
| AgentFeed.AgentFeedIsTheTop | cmd/aplexica/cmd_daemon_web_api.go:615-683 | with update times that bound the logs, largest first, the result holds the `limit` newest events of all attributed logs |
| AgentFeedExact.FeedIsTopIff | cmd/aplexica/cmd_daemon_web_api.go:625-677 | for one limit: the feed shows the newest events of all candidates if and only if every event it did not read has `limit` events at least as new in the logs it did |
| AgentFeedExact.FeedRightForEveryLimitIff | cmd/aplexica/cmd_daemon_web_api.go:615-677 | the feed is right for every limit if and only if no candidate is overtaken: from it on there is no event later than one before it that the candidate's update time does not beat |
| AgentFeed.TopStampsUnique | cmd/aplexica/cmd_daemon_web_api.go:674-683 | the timestamps shown are the `limit` largest, stamp by stamp, however ties were cut |
| AgentFeed.SideBranchEventMissed | cmd/aplexica/cmd_daemon_web_api.go:584-587 | an artifact whose side branch is newer than its update time has that event missed by a feed another artifact already fills |
| ReplayBlocks.IndexFirst | cmd/aplexica/cmd_repair_conversation.go:594-599 | the map gives every identity its first position |
| ReplayBlocks.MeasureBlock | cmd/aplexica/cmd_repair_conversation.go:601-615 | the block to drop at a position: the longest repetition of the run at the identity's first occurrence that stays clear of itself, if two turns long and with a user turn, else nothing |
| ReplayBlocks.ReplayedTurnBlockKeepMask | cmd/aplexica/cmd_repair_conversation.go:586-622 | the array is the greedy left-to-right mask of those blocks; everything is kept when identities and turns differ in number |
| ReplayFacts.DroppedInReplay | cmd/aplexica/cmd_repair_conversation.go:568-585 | every dropped turn lies in a run of two or more turns, one of them a user's, that equals position by position a run ending at or before its start |
| ReplayFacts.FirstOccurrenceKept | cmd/aplexica/cmd_repair_conversation.go:568-574 | the first occurrence of every identity is kept |
| ReplayFacts.MasksGrow | cmd/aplexica/cmd_repair_conversation.go:568-574 | the masks of a thread and of any extension of it agree up to one cut; from there to the old end the longer thread drops everything, in one block straddling that end |
| ReplayFacts.AppendNeverRestores | cmd/aplexica/cmd_repair_conversation.go:568-574 | a turn dropped from a thread is dropped from every extension of it |
| ReplayFacts.ScanNotIdempotent | cmd/aplexica/cmd_repair_conversation.go:572-574 | a concrete thread on which a second scan drops more |
| ReplayFacts.ScanQuietIff | cmd/aplexica/cmd_repair_conversation.go:576-622 | the greedy scan keeps a whole thread if and only if nowhere in it do two or more turns, one of them a user's, repeat the run at the first occurrence of their first identity |
| ReplayAgain.LeftoverBridges | cmd/aplexica/cmd_repair_conversation.go:572-622 | whatever still repeats after one scan bridges a dropped block: its copy, or the run it copies, is not one stretch of the original thread |
| ReplayAgain.SecondScanQuietIff | cmd/aplexica/cmd_repair_conversation.go:572-622 | a second scan drops nothing if and only if no repetition bridges a block the first one dropped |
| ReplayAgain.DroppedEndIsQuiet | cmd/aplexica/cmd_repair_conversation.go:572-622 | when all that was dropped is the end of the thread, a second scan drops nothing |
| Transcript.VisibleTurnIdentities | cmd/aplexica/cmd_repair_conversation.go:553-566 | one identity for each visible turn event, in order, cut at the turn count |
| Transcript.IdentitiesAlign | cmd/aplexica/cmd_repair_conversation.go:740-753 | identities and extracted turns are equally many, so the mask is never refused for drift |
| Transcript.IdentitiesAligned | cmd/aplexica/cmd_repair_conversation.go:633-652 | equal identities belong to equal turns; an unencodable event matches none |
| Transcript.JoinConcat | internal/acf/conversation_turns.go:182-190 | the text of a content is that of its parts in order, with a blank line between two parts that both say something: every non-empty text block counts |
| Transcript.JoinOne | internal/acf/conversation_turns.go:182-190 | one block says its text if it is a text block, and nothing otherwise |
| Transcript.TurnShownIff | internal/acf/conversation_turns.go:26-42 | an event shows a turn if and only if it is a user's or an assistant's turn event and the turn has its role and its joined text as normalised |
| Transcript.SameIdentityIff | cmd/aplexica/cmd_repair_conversation.go:633-652 | two encodable events have one identity if and only if they are the same in every field, timestamp included; an unencodable one matches only itself |
| Transcript.TurnsAreEvents | cmd/aplexica/cmd_repair_conversation.go:553-566 | turns and identities are, in order, those of all and only the visible events |
| Transcript.TurnsMatchIff | cmd/aplexica/cmd_repair_conversation.go:553-566 | two turns of a thread have one identity if and only if they are one turn or their events are encodable and equal |
| Transcript.ThreadGrows | internal/acf/conversation_turns.go:26-42 | turns and identities of a thread are prefixes of those of any extension |
| KeepMask.DropAdjacentEchoes | cmd/aplexica/cmd_repair_conversation.go:516-528 | in place: a kept turn is dropped exactly when it repeats the role and text of the last turn still kept before it |
| KeepMask.DropTrailingEcho | cmd/aplexica/cmd_repair_conversation.go:530-547 | in place: only the last kept turn changes, and it is dropped exactly when it is not the first turn, is a user's and repeats an earlier kept user turn |
| KeepMask.ConversationTurnKeepMask | cmd/aplexica/cmd_repair_conversation.go:512-548 | the three passes, one after another, on one array |
| KeepMask.RepairLeavesNoEchoes | cmd/aplexica/cmd_repair_conversation.go:505-528 | after all passes no two consecutive surviving turns have equal role and text |
| KeepMask.NoContentLost | cmd/aplexica/cmd_repair_conversation.go:512-548 | every turn of the thread has a surviving turn with the same role and text |
| KeepMask.SameTurnSet | cmd/aplexica/cmd_repair_conversation.go:512-548 | the set of (role, text) pairs among visible turns is the same before and after |
| KeepMask.TrailingPassNotIdempotent | cmd/aplexica/cmd_repair_conversation.go:530-547 | a concrete thread whose repaired form the trailing pass shortens again |
| KeepMask.TrailingPassQuietIff | cmd/aplexica/cmd_repair_conversation.go:530-547 | a second trailing pass is quiet unless, and only unless, the last two surviving turns are both users' repeats of earlier ones |
| CollapseEvents.CollapseDuplicateConversationTurns | cmd/aplexica/cmd_repair_conversation.go:695-705 | the turns the mask keeps, and whether that is fewer |
| CollapseEvents.CollapseConversationEvents | cmd/aplexica/cmd_repair_conversation.go:715-738 | the events kept by a cursor over the same mask; the drift branch is never taken |
| CollapseEvents.CollapseCommutes | cmd/aplexica/cmd_repair_conversation.go:707-738 | for any mask, the turns extracted from the collapsed prefix are the masked turns of the prefix |
| CollapseEvents.ProjectionsAgree | cmd/aplexica/cmd_repair_conversation.go:239-251 | the turns of the collapsed events equal the collapsed turns, so the refusal never fires |
| CollapseEvents.NonVisibleSurvive | cmd/aplexica/cmd_repair_conversation.go:707-714 | every event that shows no turn survives, in order, whatever the mask |
| CollapseEvents.CollapsedIsSubsequence | cmd/aplexica/cmd_repair_conversation.go:707-738 | whatever the mask, what is left is the event list with some events taken out: nothing is added or moved |
| CollapseEvents.ChangedTogether | cmd/aplexica/cmd_repair_conversation.go:240-260 | the turn list shrinks if and only if the event list changes |
| CollapseEvents.RepairKeepsContent | cmd/aplexica/cmd_repair_conversation.go:304-308 | the repaired events show the same set of turns as before, and no adjacent echoes |
| CollapseEvents.ExtendedThreadStaysDropped | cmd/aplexica/cmd_repair_conversation.go:568-574 | a turn the block pass drops from a log is dropped from every extension of the log |
| RepairAgain.RepairQuietIff | cmd/aplexica/cmd_repair_conversation.go:512-548 | a repair changes nothing if and only if no run of identities repeats at its first occurrence, no neighbours are equal and the end is no user's repeat |
| RepairAgain.SecondRepairQuietIff | cmd/aplexica/cmd_repair_conversation.go:209-349 | a second repair changes nothing if and only if what the first one left has no repeating run of identities and does not end in a user's repeat |
| RepairAgain.SecondRepairDrops | cmd/aplexica/cmd_repair_conversation.go:530-547 | a concrete conversation of six turns that the first and the second repair each shorten by one |
| RepairAgain.RepairsSettle | cmd/aplexica/cmd_repair_conversation.go:209-349 | as many repairs as there are events reach a conversation that no repair changes and that shows the same set of turns |
| RepairSweep.PeerGuard.Check | cmd/aplexica/cmd_repair_conversation.go:366-390 | every call gives the one verdict of the command, which refuses if and only if the check is asked for, not forced, and the first query says so; the fleet is asked at most once |
| RepairSweep.RepairOneConversation | cmd/aplexica/cmd_repair_conversation.go:209-349 | error, verdict and new store for each kind of head and each failure of the side-branch listing or of the write; what is written is the repaired event list; the guard is asked only when a repair is proposed, and a refusal, a failure or a dry run writes nothing |
| RepairSweep.RepairAllConversations | cmd/aplexica/cmd_repair_conversation.go:165-204 | a refusing guard stops the sweep at the first proposed repair, reports it exactly when there is one, writes nothing, and the count is of the failures before it; otherwise every listed conversation that meets no failure holds its repaired events at the end and every other head is as it was, the ones rewritten are written once each in listing order, and repaired and failed ones are counted |
| BackupSafety.InvNext | cmd/aplexica/cmd_backup_secure.go:88-176 | the inductive invariant (untouched, preparing, undoing, undone, committing, committed) survives every step, crash and restart |
| BackupSafety.RunKeepsInv | cmd/aplexica/cmd_backup_secure.go:423-463 | it holds in every state of every schedule |
| BackupTheorems.FinishedIsOneGeneration | cmd/aplexica/cmd_backup_secure.go:88-176 | a recovery that finishes, under any schedule, leaves exactly the new pair, or only old files at their own names, or the untouched start; new and old are never mixed |
| BackupTheorems.CommitIsFinal | cmd/aplexica/cmd_backup_secure.go:107-122 | once `state-committed` is durable nothing later fails or is rolled back, and every finished state is the new pair, no temporary or rollback file, no journal, outcome success |
| BackupTheorems.CommitRecoveryFinishes | cmd/aplexica/cmd_backup_secure.go:151-175 | past the commit point one uninterrupted recovery always finishes, wherever earlier ones stopped |
| BackupTheorems.AuditOutcomeFixed | cmd/aplexica/cmd_backup_secure.go:151-167 | an audit transaction never gets two different outcomes, and the recorder is never asked for a conflicting one |
| BackupTheorems.OutcomeTellsTheTruth | cmd/aplexica/cmd_backup_secure.go:151-167 | "success" is recorded only after `state-committed` was durable; "rolled-back" only in a schedule in which it never is |
| BackupTheorems.JournalForward | cmd/aplexica/cmd_backup_secure.go:162-166 | a rewritten journal is strictly further in phase and sequence |
| BackupTheorems.RollbackExactly | cmd/aplexica/cmd_backup_secure.go:123-176 | what one uninterrupted rollback leaves, from every directory a prepared journal can be found in: each old file whose rollback copy exists, and nothing else |
| BackupTheorems.RollbackRestoresIff | cmd/aplexica/cmd_backup_secure.go:123-150 | it restores the old pair if and only if every old file has its rollback copy |
| BackupTheorems.CrashedWriteRestoresIff | cmd/aplexica/cmd_backup_secure.go:432-454 | at any write step of any schedule: a recovery from a crash right there restores the old pair if and only if each pre-existing file had been moved aside |
| BackupRuns.CrashedWriteEnds | cmd/aplexica/cmd_backup_secure.go:423-463 | for every backup and write step there is a schedule with its crash at that step that ends, and it ends with the old pair under the same condition |
| BackupRuns.InterruptedRollbackLosesData | cmd/aplexica/cmd_backup_secure.go:123-132 | any schedule that left the old data aside under a prepared journal can go on so that a rollback restores the data and the next one, which finishes, deletes it |
| BackupRuns.ReplacedDataCanBeLost | cmd/aplexica/cmd_backup_secure.go:88-176 | so every backup that replaces a file has a schedule that ends with its old data under no name |
| BackupTheorems.UndoneJournalFinishesIff | cmd/aplexica/cmd_backup_secure.go:107-122 | from a rolled-back journal left at `audit-committed` a recovery finishes if and only if both files carry the new digests |
| BackupTheorems.RestoredPairStuckIff | cmd/aplexica/cmd_backup_secure.go:151-175 | a complete rollback interrupted before its journal is removed: if the old bytes differ from the new ones nothing ever changes again, otherwise one recovery finishes with exactly the old pair |
| BackupRuns.RestoredPairReached | cmd/aplexica/cmd_backup_secure.go:151-175 | every backup has a schedule of two crashes that ends in such a state |
| BackupRuns.BackupCanBeStuck | cmd/aplexica/cmd_backup_secure.go:88-122 | when the old bytes differ from the new ones there is a schedule every continuation of which leaves the disk as it is and never runs a recovery |
| BackupRuns.WriteFinishes | cmd/aplexica/cmd_backup_secure.go:423-463 | an undisturbed write is under way for fourteen steps and then ends in exactly the new pair |
| BackupTheorems.RejectedForever | cmd/aplexica/cmd_backup_secure.go:107-122 | once refused, every later invocation changes nothing and refuses again |
| BackupRoot.Root.UndoMoves | cmd/aplexica/cmd_backup_secure.go:123-150 | the four moves, for every point at which the power fails, are the machine's run |
| BackupRoot.Root.FinishRecovery | cmd/aplexica/cmd_backup_secure.go:151-176 | audit, journal and cleanup, likewise |
| BackupRoot.Root.RecoverBackupPair | cmd/aplexica/cmd_backup_secure.go:88-176 | recovery from whatever the journal says reaches exactly the machine's state; it says it finished if and only if no journal is left, refuses the pair if and only if the journal is past `prepared` and a file does not carry its digest, and then touches nothing; a conflicting audit outcome is never passed over; otherwise it finishes if and only if the power lasts for its eleven, seven or five operations |
| BackupRoot.Root.InstallPair | cmd/aplexica/cmd_backup_secure.go:423-463 | the write from the journal on, including the recovery that ends it, is the machine's run; it finishes if and only if the power lasts, and then the new pair stands alone with outcome success |
| RemoteBackfill.RunPass | cmd/aplexica/cmd_daemon.go:3671-3725 | one pass over the pages of a branch: last event passed, how it ended, and every verdict seen |
| RemoteDriver.DelayIsExponential | cmd/aplexica/cmd_daemon.go:3732-3740 | the n-th delay is min(base * 2^(n-1), max) for every n with the shipped constants, although the shift is capped at 8 |
| RemoteDriver.DelayNeverDecreases | cmd/aplexica/cmd_daemon.go:3732-3740 | delays never decrease within a streak |
| RemoteDriver.Driver.SettleRetry | cmd/aplexica/cmd_daemon.go:3726-3764 | retry state and alarms after a pass, for one branch and no other |
| RemoteDriver.Driver.Reconcile | cmd/aplexica/cmd_daemon.go:3657-3769 | one branch in one tick: a branch that waits for its next attempt, or stands at the tip, is left alone and raises nothing; any other gets its pass, retry state and stored cursor; every other branch is unchanged |
| RemoteSafety.PassAdvances | cmd/aplexica/cmd_daemon.go:3671-3725 | against an honest relay a pass moves the cursor forward in relay order over settled events only, and stops right before the event to retry |
| RemoteSafety.PassedAllAnsweredIff | cmd/aplexica/cmd_daemon.go:3704-3716 | every event passed has an answer if and only if the importer answered for the whole page or named one to retry |
| RemoteSafety.PassCatchesUp | cmd/aplexica/cmd_daemon.go:3671-3725 | against a relay that serves its log to the end and an importer that asks for no retry a pass completes with the cursor at the end of the log |
| RemoteSafety.PassStopsIff | cmd/aplexica/cmd_daemon.go:3704-3721 | a pass stops if and only if the importer asked for a retry, and at the first event it asked for |
| RemoteSafety.NoSilentLoss | cmd/aplexica/cmd_daemon.go:3657-3769 | with a relay that pages its own growing log truthfully, and any fetch errors, page sizes, outcomes and clocks: in every reachable state every event at or before the stored cursor got an outcome that is not retryable (none at all only from an importer that answers short), and the cursor only moved forward |
| RemoteSafety.SilentImporterIsPassed | cmd/aplexica/cmd_daemon.go:3703-3716 | an importer that answers nothing has its whole page passed |
| RemoteSafety.FailuresCountTheStreak | cmd/aplexica/cmd_daemon.go:3726-3732 | over all runs the failure count is the number of failures on the current event; fetch errors neither reset nor advance it |
| RemoteSafety.StreakDelay | cmd/aplexica/cmd_daemon.go:3732-3741 | after the n-th consecutive failure the branch waits min(base * 2^(n-1), max) |
| RemoteSafety.BackoffIsWaitedOut | cmd/aplexica/cmd_daemon.go:3664-3666 | over every run, after the n-th failure of a streak the driver makes no pass on the branch, not even one that cannot fetch, before min(base * 2^(n-1), max) has gone by |
| RemoteSafety.OneAlarmPerStreak | cmd/aplexica/cmd_daemon.go:3748-3755 | a streak raises the wedged alarm once if it reaches ten failures, and otherwise never |
| RemoteSafety.RunAlarmsAreTraceAlarms | cmd/aplexica/cmd_daemon.go:3748-3755 | the alarms the driver raises over a run are, one for one, those of the passes it made |
| RemoteSafety.StreakAddsOneAlarm | cmd/aplexica/cmd_daemon.go:3748-3755 | over a whole run a streak adds one alarm to those raised before it if it reaches ten failures, else none |
| RemoteSafety.DriveBranch | cmd/aplexica/cmd_daemon.go:3657-3769 | tick after tick on one branch the driver goes through exactly the states and alarms of the run, and touches no other branch |
| RemoteSafety.RunRetryIsTraceRetry | cmd/aplexica/cmd_daemon.go:3726-3764 | the driver's retry state over any run is that of the passes it made |
| InboundAck.AckFromResults | cmd/aplexica/remote_inbound_durable.go:283-325 | one disposition for each result; terminal exactly when there is one for every event and none is retryable |
| InboundAck.DurableTerminalIff | cmd/aplexica/remote_inbound_durable.go:279-282 | a durable delivery is terminal if and only if every event was applied, already held or skipped: no rejected, deferred or unknown outcome |
| InboundAck.LegacyAck | cmd/aplexica/remote_inbound_durable.go:283-325 | on the legacy path a retry is asked only for transient and unknown outcomes and exactly the rejected events are set aside; the durable path sets nothing aside, and the two part ways on an accepted event exactly for a missing baseline |
| InboxState.PruneCandidates | internal/daemon/inbox.go:600-638 | refuses exactly when two completions share a position up to the cursor, or the cursor is not proved by an exact completion; otherwise gives all and only the finalized completions behind it |
| InboxState.BarrierScan | cmd/aplexica/remote_inbound_finalize.go:221-236 | passes exactly when at most one completion waits for its native finalize and it ends where the delivery ends |
| InboxState.CompletionFinalized | internal/daemon/inbox.go:490-514 | true exactly when the completion at the cursor is there, alone, exact and finalized |
| InboxState.CompleteSound | internal/daemon/inbox.go:745-778 | recording a completion behind the barrier keeps the invariant and leaves nothing else waiting |
| InboxState.BoundIffCompletedTwice | internal/daemon/inbox.go:617-621 | in every sound state the stream is bound at a mark if and only if two deliveries with different ids that end there were ever completed, whenever they came |
| InboxState.UnboundIffOneEach | internal/daemon/inbox.go:617-621 | in every sound state the stream is bound nowhere if and only if each position is completed at most once among the deliveries held |
| InboxState.BarrierClears | cmd/aplexica/remote_inbound_finalize.go:225-266 | the barrier lets no delivery past a bound mark |
| InboxState.AdvanceSound | cmd/aplexica/remote_inbound_durable.go:219-252 | advancing from the exact predecessor keeps the cursor's whole prefix covered by completed deliveries, end to end, and never moves it past a completion that waits |
| InboxState.PruneSound | internal/daemon/inbox.go:567-572 | removing a finalized completion behind the cursor keeps the completion the cursor stands on |
| InboxState.FinalizeSound | internal/daemon/inbox.go:665-697 | marking the delivery at the cursor finalized keeps the invariant |
| DurableInbound.Host.AdvanceCursor | cmd/aplexica/remote_inbound_durable.go:228-252 | from nothing at genesis, from the exact predecessor, or idempotently; whatever fails, the cursor is the old one or the delivery's |
| DurableInbound.Host.RepairFromCompleted | internal/daemon/durable_cursor_store.go:609-659 | afterwards the cursor is at or past the completion; it moves at most one step, to the completion that waits |
| DurableInbound.Host.Prune | internal/daemon/inbox.go:573-645 | only finalized completions behind the cursor leave; wherever it is cut short, none that left is newer than one still to leave; none remains on success, and two completions at one position stop it |
| DurableInbound.Host.EnsureRepaired | cmd/aplexica/remote_inbound_durable.go:40-81 | success, once in each process, brings the cursor to every recorded completion; without new trouble and with each position completed at most once it always succeeds |
| DurableInbound.Host.FinalizeBarrier | cmd/aplexica/remote_inbound_finalize.go:217-267 | lets through only the delivery at or right after the cursor, only when no other completion waits, and one after the cursor only when the completion at the cursor is there, alone and finalized; it stops no such delivery while each position is completed at most once |
| DurableInbound.Host.Admit | internal/daemon/inbox.go:295-365 | the delivery is recorded before anything is imported, or the answer given before is found; nothing is ever added to a full inbox, and without trouble only that and a reused id are refused |
| DurableInbound.Host.ImportAndComplete | cmd/aplexica/cmd_daemon.go:1414-1490 | a completion is recorded if and only if the outcomes are full and terminal |
| DurableInbound.Host.Commit | cmd/aplexica/cmd_daemon.go:1396-1408 | staged cleanup precedes the cursor advance at every crash point, and success means committed |
| DurableInbound.Host.OnInboundV2 | cmd/aplexica/cmd_daemon.go:1324-1518 | a delivery that a gate stops or that is malformed gets a retry and touches nothing; at every exit the invariant holds and history only grows; nothing is answered before restart repair or after an operation that did not work; an answer accepts every event if and only if completion, cleanup and cursor advance are done; with no trouble a delivery completed before is accepted, and any other gets its importer's dispositions, is committed if and only if they are terminal, and is left uncommitted without a retryable outcome if and only if the importer's outcomes are too few or too many and none would be retried, unless another delivery is completed to the same position: then terminal outcomes get a retry and bind the stream there; an acceptance means no mark binds the stream and nothing is left to prune; a clogged stream stays clogged and its cursor stands still |
| DurableInbound.Host.OnInboundFinalizeV1 | cmd/aplexica/remote_inbound_finalize.go:275-352 | accepted only for the completed delivery the cursor stands on, and marked only after its native write succeeded; never touches the cursor; afterwards nothing waits, so the successor is let in |
| InboundSchedule.Serve | cmd/aplexica/cmd_daemon.go:1346-1358 | over any schedule of deliveries, redeliveries, finalizes, restarts and failures: accepted deliveries stay completed and behind the cursor; the stream is bound at a mark exactly when two deliveries that end there were completed; a bound stream never passes its mark and accepts nothing; a clogged one stays clogged; once it is either, no delivery past the cursor is ever accepted; a relay that numbers stably never binds it; while every delivery meets a closed gate nothing is admitted or completed and every answer is a retry |
| InboundSchedule.GoOn | cmd/aplexica/cmd_daemon.go:1324-1518 | from any state that is neither bound nor clogged, and after a restart without trouble, there is a schedule that accepts a delivery past the cursor |
| InboundSchedule.CompletedAgain | internal/daemon/inbox.go:617-621 | a fresh stream and two deliveries for the same marks: the first is accepted, the second gets a retry, and the stream is bound |
| InboundSchedule.FillTheInbox | internal/daemon/inbox.go:356-358 | a fresh stream whose relay gives every attempt a new id: the inbox fills, one attempt is accepted and finalized, no mark is bound, and the stream is clogged |
| InboundSchedule.ShortAnswer | cmd/aplexica/remote_inbound_durable.go:283-325 | a fresh stream, one delivery and an importer that answers nothing: an answer with no retryable outcome and nothing committed |
| CloudIdentity.NextKeepsInv | cmd/aplexica/cmd_daemon.go:1297-1312 | every step of any number of waiting pairings, command-line pairings and refreshes keeps the lock invariant, and only a pairing that releases the lock for an older credential lowers the one in force |
| CloudIdentity.NeverLoweredIffInOrder | cmd/aplexica/cmd_daemon.go:3939-3944 | over any run the credential in force never gets older if and only if every completed pairing took the lock for one no older than the one then in force |
| CloudIdentity.NeverGoesBack | cmd/aplexica/cmd_daemon.go:3939-3944 | with locks taken in order no component ever shows an older credential than one in force before |
| CloudIdentity.OneAtATimeIsInOrder | cmd/aplexica/cmd_daemon_web_api.go:2530-2539 | pairings issued one after another take the lock in order, whatever refreshes run beside them |
| CloudIdentity.FreeMeansAgree | cmd/aplexica/cmd_daemon.go:3946-3983 | whenever the lock is free all components hold the same id |
| CloudIdentity.PairTakesHold | cmd/aplexica/cmd_daemon_web_api.go:2530-2539 | after a pairing's apply every later id comes from its credential or a newer one |
| CloudIdentity.RefreshTakesHold | cmd/aplexica/cmd_daemon.go:3946-3983 | when a refresh that got its answer releases the lock, every component shows the newest credential there was when it asked; one that got none changes no component |
| CloudIdentity.OverlappingPairingsGoBack | cmd/aplexica/cmd_daemon_web_api.go:2530-2543 | a run from a sound start in which two pairings overlap and the older one takes the identity back |
| CloudIdentity.ApplyIdentityLocked | cmd/aplexica/cmd_daemon.go:3965-3983 | every component gets the id, an empty id changes nothing, and the loop is a run of the lock machine |
| BranchIndex.RefreshBranchIndex | internal/acf/branch.go:133-216 | the two loops compute the rebuild as a function of the log, the aliases and the stored sticky fields |
| BranchIndex.BuildIsIndex | internal/acf/branch.go:141-185 | when no two branches show one name, the rebuild is one entry for each branch of the log, under its display name, with the facts of its own events and the last merge that named it |
| BranchIndex.FactsAreOwn | internal/acf/branch.go:152-176 | a branch's facts are those of its own events: their number, the head and time of the last, the first time set, and the fork data of the first fork that names a parent |
| BranchIndex.MarksSurvive | internal/acf/branch.go:186-200 | a rebuild keeps archive mark, time, reason and tags under each name and gives none to a new name |
| BranchRename.FindOrigin | cmd/aplexica/cmd_branch.go:199-205 | the search returns an alias that shows the name, or the name itself when there is none |
| BranchRename.OriginIsUnique | cmd/aplexica/cmd_branch.go:199-205 | whatever order the map is searched in, the answer is the one log name that shows the name |
| BranchRename.RenameKeepsGood | cmd/aplexica/cmd_branch.go:206-216 | after a rename log names and display names are still paired one to one, and only the renamed branch shows another name |
| BranchRename.EditMatchesButForMerges | cmd/aplexica/cmd_branch.go:209-216 | edited and rebuilt index agree on every branch and every field but, possibly, the merge mark |
| BranchRename.EditAgreesIff | cmd/aplexica/cmd_branch.go:194-216 | they agree entirely if and only if no other branch was last merged into the renamed one and the renamed one's last merge reads the same under both names |
| BranchHistory.RenameBackRestores | cmd/aplexica/cmd_branch.go:209-216 | renaming there and back gives, after a rebuild, the very index of before |
| BranchHistory.AppendKeepsGoodIff | internal/acf/branch.go:142-158 | one more event keeps names paired one to one if and only if its branch is in the log already or its name is shown by none |
| BranchHistory.ReusedNameCollides | internal/acf/branch.go:152-158 | a new branch under a name that a renamed one shows is folded into it |
| BranchHistory.CreateShowsIff | cmd/aplexica/cmd_branch.go:129-146 | an event under a name that no branch shows keeps the pairing, and makes a branch of that name if and only if it is no alias's log name; otherwise it is one more event of the renamed branch |
| BranchHistory.CreatedNameIsFolded | cmd/aplexica/cmd_branch.go:129-146 | `topic`, renamed to `idea` and created again: no `topic` appears and `idea` has both events, although names are still paired |
| BranchHistory.RenamedMergeIsForgotten | internal/acf/branch.go:177-183 | a merged branch loses its merge mark at the first rebuild after its rename |
| BranchHistory.ArtifactBranches.Rename | cmd/aplexica/cmd_branch.go:164-229 | each refusal for exactly its reason, and on success the edited index of the one branch that showed the old name |
| BranchHistory.ArtifactBranches.RenameAll | cmd/aplexica/cmd_branch.go:164-229 | any sequence of renames keeps the pairing one to one |
| BranchHistory.ArtifactBranches.Append | internal/acf/branch.go:152-158 | an appended event keeps the pairing if and only if its branch is in the log or its name is shown by none |
| BranchHistory.ArtifactBranches.Replay | cmd/aplexica/cmd_branch.go:164-229 | a history of renames between appended events keeps the pairing all the way if and only if no event reuses a name shown at its time |

## Left out

- The feed's page cache (its key omits metadata that the records show), the projection of an event into a record, and
  read errors: a log that cannot be read is taken to be readable.
- FeedPaging.Backfill: the page cache, an error from listing or reading, and a store that changes between the listing
  and the reads.
- FeedLoss.LoseEvent: in stores where milliseconds repeat, a tie in one log can widen the reads of the others and hide
  that a log is out of order; there the condition for exact pages is given page by page (`FeedLoss.PagesCompleteIff`).
- AgentFeed.RecentAgentEvents: how an artifact is matched to an agent's roots, and what a row's type and text say.
- `NormalizeTextTurn` is a parameter: any function of role and text that may hide a turn and rewrite its text.
- RepairSweep.RepairOneConversation: printing, the backup's file, the encoding and the append's parent hash are not
  modelled; the new head is the collapsed event list, and a failed write leaves the old head.
- Bundle encoding, encryption, signing, hashing, JSON and the journal's checksum; filesystem errors other than crashes
  in the backup; the audit recorder beyond one outcome for each transaction.
- The steps of a backup before its journal is written, and two backups into one directory.
- The driver's subscription, enumeration, wrap-key registration and republication, and the loop that calls `tick`.
- DurableInbound.Host.FinalizeBarrier: a cursor seeded from a checkpoint is not a starting state, so the exemption for
  a seeded predecessor is not modelled.
- DurableInbound.Host.Admit: the byte limit of the inbox and the security epoch are operations that may fail.
- DurableInbound.Host.ImportAndComplete: gap recovery; what it imports counts as the importer's outcomes. The contents of
  canonical and finalize evidence: present and right, or an operation that fails.
- DurableInbound.Host.OnInboundV2: the gates before the stream (generation, capabilities, negotiation) are one flag. More
  than one stream, and the legacy delivery path, are not modelled.
- DurableInbound.Host.OnInboundFinalizeV1: the native writes of a batch are one, which succeeds or does not.
- `CloudIdentity`: the restart of the plugin after a pairing, and daemon restarts.
- Branch names are taken in normal form; normalisation, archiving, deleting, tagging and merging are not commands here.
- BranchRename.EditAgreesIff: assumes that no two branches show one name before the rename, which a later log event can
  break (`BranchHistory.AppendKeepsGoodIff`).
- Local rule edits against cloud rule pushes: the file read and the engine swap are not under one lock, so no agreement
  between them holds.
- Merge strategies, command parsing, printing, prompts, graphs, tray, web server, process launch, signals, secrets,
  setup and update: plumbing.
