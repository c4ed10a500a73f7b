# Kiokuko AI: verified models of its stateful protocols

This project models, in Dafny 4.11, the parts of Kiokuko AI that change shared state
defensively, step by step, and proves what those steps keep over every run: conditional
replacement of a file by name, commit and undo of a setup plan, settling on a concurrent
writer's result, context deliveries that attest the history they were chosen from, the
discovery budget, the workspace archive, the managed region of an agent file, the capability
catalog digest, and the intake.

`dafny verify dfyconfig.toml` checks the whole project. Each module stands for one component:

- `AtomicProtocol`, `AtomicRace`, `AtomicTrace`, `AtomicPending`, `AtomicCall`: compare-and-swap on a pathname
  built from exclusive create, rename, hard link and unlink. A directory is a map from names to
  inodes and a table from inodes to content and mode; the link count of an inode is the number
  of its names. `AtomicRace` interleaves any number of calls and outsiders at every filesystem
  call. `AtomicCall` is the code itself, with an arbitrary environment step and an arbitrary
  fault before every filesystem call and at every hook. `AtomicTrace` joins the two: what a call
  executes is a run of the interleaved machine.
- `SetupUndo`, `Settling`: commit and reverse undo of directories and files; bounded observation
  loops over every sequence of observations.
- `Paging`, `DeliveryHistory`, `HistoryBasis`, `ContextBroker`, `GreedyReplay`: keyset pages, history
  attestation and what a history consists of, replay and recording, the character budget of a replay.
- `DiscoveryLedger`: reserve, complete, fail and replay under one global budget.
- `Supersession`, `ArchiveFormat`, `ArchiveStore`, `ArchiveImport`, `ArchiveRules`, `ArchiveLaws`: the
  archive text, its printer and parser, export and import over the tables, when each succeeds, and
  the laws joining them.
- `ManagedBlock`, `CapabilityCatalog`, `CatalogLaws`, `CatalogDigest`, `Intake`: marked-region edits, the
  budgeted normaliser, what it yields and its digest, the three-question intake.
- `Options`, `Sequences`, `Ordering`: shared definitions (optional values, prefixes, key sets
  and filters, ascending listings, string order).

Hashes are injective functions, canonical JSON is an injective encoder onto non-empty single
lines, and Unicode rules (trimming, cleaning, name checks) are parameters. Where a promise turned
out to hold only under a condition, the exact condition is proved:

- A repeated upsert changes nothing except exactly when the block was appended to a text that ends
  in a bare CR and has no CRLF (`ManagedBlock.UpsertIdempotentIff`).
- A failed setup leaves everything as it was except exactly when the first directory step that
  stops makes its directory and fails before recording it, a condition on the tree, the plan and
  the faults (`SetupUndo.Disk.Commit`, `SetupUndo.Leaks`; `SetupUndo.LeakExample` is an input).
- A dry run forecasts an import except exactly when a new entry has an identifier the embedding
  queue refuses (`ArchiveLaws.DryRunForecasts`; `ArchiveLaws.DryRunMisleads` is an archive).
- The integrity answer of a discovery claim is reached exactly when a completed attempt is claimed
  under another mode, never because of the budget (`DiscoveryLedger.ClaimTrap`;
  `DiscoveryLedger.TrapIsReached` is a run).
- After an update that failed and put the original back, no artifact is found except exactly when
  the replacement is still under its rollback name (`AtomicPending.EveryStateIsRecognisable`;
  `AtomicPending.RollbackOutlivesTheOriginal` is a run).

## Model

| member | source | states |
|---|---|---|
| AtomicProtocol.StepKeepsAccounts | src/agent-file/atomic-write.ts:883-1225 | every legal step of a call keeps its record in agreement with the directory: which private names exist and which inode each holds |
| AtomicProtocol.StepIsRely | src/agent-file/atomic-write.ts:883-1225 | a step of one call is, for every other call, an allowed outside change: it never touches another call's private names |
| AtomicProtocol.RelyKeepsAccounts | src/agent-file/atomic-write.ts:883-1225 | allowed outside changes keep a call's record true of the directory |
| AtomicProtocol.DestinationsFree | src/agent-file/atomic-write.ts:883-943 | the private name a rename or link goes to is unused, so no step overwrites a name |
| AtomicProtocol.ViewStep | src/agent-file/atomic-write.ts:568-632 | exact effect of each step on the names, snapshots and link counts the call can see |
| AtomicProtocol.RenameKeepsCount | src/agent-file/atomic-write.ts:582-619 | renaming to a free name keeps every link count |
| AtomicProtocol.LinkAddsOne | src/agent-file/atomic-write.ts:1040-1050 | linking to a free name adds one link to that inode and none to others |
| AtomicProtocol.UnlinkDropsOne | src/agent-file/atomic-write.ts:597-619 | unlinking drops one link of that inode and none of others |
| AtomicProtocol.StepKeepsCounted | src/agent-file/atomic-write.ts:832-862 | while nobody else touches the call's files, every step keeps the link count of the created file equal to the number of names the record gives it, faults or not |
| AtomicRace.InvAlways | src/agent-file/atomic-write.ts:883-1225 | in every state of every interleaving, records agree with the directory, no two calls hold the same file, and whoever returned had taken exactly the expected file |
| AtomicRace.AtMostOneReturns | src/agent-file/atomic-write.ts:883-1225 | of any number of calls planned against one snapshot, at most one returns normally, and it took exactly the expected inode |
| AtomicRace.AtMostOneCreates | src/agent-file/atomic-write.ts:1040-1108 | of any number of writers expecting absence, at most one returns, and the target is the file it created |
| AtomicRace.NothingForeignDestroyed | src/agent-file/atomic-write.ts:568-632 | a file loses its last name by a call's step only if it is the call's own temporary, or the exact original after the replacement was linked and twice seen at the target, the unlink committed, or the original was linked back; no step changes another file's bytes |
| AtomicRace.ValidationsWereSeen | src/agent-file/atomic-write.ts:1077-1100 | each validation in a record is an earlier moment of the run at which the target was bound to the file the call created, with exactly two names and the recorded bytes and mode |
| AtomicRace.ClearedWereFree | src/agent-file/atomic-write.ts:1110-1125 | each path in a record's list of cleared ones did not exist at an earlier moment of the run, by when the replacement was in place and twice validated, or the exact original captured for deletion |
| AtomicRace.AloneWasSeen | src/agent-file/atomic-write.ts:1465-1473 | a call that returned with nothing left to clean up has at some moment seen its own file at the target under one name |
| AtomicRace.WrongCaptureIsKept | src/agent-file/atomic-write.ts:908-1000 | a file captured by mistake keeps its quarantine name, and that call never returns normally |
| AtomicRace.RecordTellsTarget | src/agent-file/atomic-write.ts:750-776 | with nobody else binding the target: an uncommitted failure leaves the starting file there, a committed mutation the new file, a displaced original nothing |
| AtomicTrace.TraceIsRun | src/agent-file/atomic-write.ts:883-1225 | whatever a call executes, the world around it moving as the machine allows, is a run of the machine that ends with the call's own record |
| AtomicTrace.ExecutedCallReturnsAlone | src/agent-file/atomic-write.ts:883-1225 | once an executed call planned against a file has returned normally, no other call of the machine planned against it has, and it took exactly that file |
| AtomicTrace.ExecutedCallCreatesAlone | src/agent-file/atomic-write.ts:1040-1108 | once an executed creation has returned normally among creations, no other has, and the target is the file it created |
| AtomicTrace.ValidatedInTrace | src/agent-file/atomic-write.ts:1077-1100 | each validation an executed call recorded was a look at the target at a moment of its execution, with the file it created there under two names |
| AtomicTrace.ClearedInTrace | src/agent-file/atomic-write.ts:1110-1125 | each path an executed call cleared was looked at and absent at a moment of its execution |
| AtomicPending.EveryStateIsRecognisable | src/agent-file/atomic-write.ts:442-494 | stopped after any step, a lone update or unlink of a singly linked file is told apart exactly: from the quarantine rename to the last unlink one artifact holding the original, refused while linked back or while two quarantines exist; otherwise none if and only if the replacement is not under its rollback name, and if it is, refused while the temporary name exists and found as a rollback after |
| AtomicPending.RollbackOutlivesTheOriginal | src/agent-file/atomic-write.ts:778-877 | a run whose original is back and erased from quarantine and which still shows a rollback artifact |
| AtomicCall.Call.Interact | src/agent-file/atomic-write.ts:883-1225 | the environment moves before a filesystem call or at a hook; the call's own record stays true |
| AtomicCall.Call.Cleanup | src/agent-file/atomic-write.ts:568-632 | disposal through a private name: success means erased; a reported name shows at that moment the exact inode, bytes and mode; undisturbed, an artifact as bound is gone with its link count dropped, and one whose bytes or count differ stays, named exactly when its bytes are the bound ones |
| AtomicCall.Call.BindOwned | src/agent-file/atomic-write.ts:644-673 | for every environment and fault a reported name is a candidate that shows the exact inode, bytes and mode then; undisturbed, it is the first such candidate, and none is reported only if there is none |
| AtomicCall.Call.Restore | src/agent-file/atomic-write.ts:695-739 | linking the quarantined original back; undisturbed, the target is restored and no artifact remains |
| AtomicCall.Call.Verdict | src/agent-file/atomic-write.ts:750-776 | the failure is an ordinary one only when the expected snapshot was seen at the target again, otherwise a committed unlink |
| AtomicCall.Call.TakeTarget | src/agent-file/atomic-write.ts:883-960 | quarantine rename and check: the planned file was taken, or the call is refused with a truthful outcome |
| AtomicCall.Call.AssertExpectation | src/agent-file/atomic-write.ts:546-567 | undisturbed, refuses a changed target as such and otherwise refuses exactly when a path that must be absent exists |
| AtomicCall.Call.SeeAlternates | src/agent-file/atomic-write.ts:1110-1125 | passes only after every path that must be absent was seen absent, each recorded; undisturbed, an existing one is an alternate |
| AtomicCall.Call.InstallLink | src/agent-file/atomic-write.ts:1009-1050 | with interference only at hooks, the file linked to the target shows exactly the prepared bytes and mode and the quarantined original is unchanged; undisturbed, the exact view after the link |
| AtomicCall.Call.TakeBack | src/agent-file/atomic-write.ts:778-877 | rolling the installed file back off the target: what was taken, what is left and reported, and, whatever throws, the temporary's link number right unless its re-reading threw |
| AtomicCall.Call.RecountTemporary | src/agent-file/atomic-write.ts:832-862 | after a failed rollback the link number is the one just read if the temporary still shows its bytes, unchanged otherwise; a re-reading that throws is one more reported failure |
| AtomicCall.Call.ValidateInstalled | src/agent-file/atomic-write.ts:1077-1104 | passes only after two recorded looks at the target that showed the linked file with its bytes, mode and two links |
| AtomicCall.Call.ConditionalInstall | src/agent-file/atomic-write.ts:883-1225 | truthful error class, named leftovers; a normal return only after the new file was twice seen at the target with its bytes and mode and every path that must be absent was then seen absent; undisturbed, exactly the replacement or exactly the old file, decided by whether such a path exists, and then before the target is touched |
| AtomicCall.Call.Prepare | src/agent-file/atomic-write.ts:1227-1330 | the temporary is created, filled and verified with one link, or the failure is uncommitted with nothing left unreported |
| AtomicCall.Call.WriteIfUnchanged | src/agent-file/atomic-write.ts:1227-1500 | for every environment and fault: the execution is a trace of legal moves, the error class is truthful about the target, an ordinary error after a foreign file was taken off the target carries a cleanup failure, leftover private names imply a reported one, a normal return twice saw the new bytes and mode at the target and then every path that must be absent absent and, with no failure to report, saw the new file there at last under one name and nothing threw; with interference only at hooks nothing but the planned file and its own is ever taken; undisturbed, exact result and no private name left, the change refused exactly when a path that must be absent exists |
| AtomicCall.Call.FinalCheck | src/agent-file/atomic-write.ts:1465-1475 | the last check after a clean disposal passes only when the new file was seen at the target under one name |
| AtomicCall.Call.DropTemporary | src/agent-file/atomic-write.ts:1458-1466 | nobody disturbing the call's files and the re-reading not having thrown, the clean-up of the temporary starts with its true link count, whatever else threw; leftovers are reported |
| AtomicCall.Call.ReturnsAlone | src/agent-file/atomic-write.ts:1227-1500 | once this call has returned normally, no other call of the machine around it planned against the same file has |
| AtomicCall.Call.CreatesAlone | src/agent-file/atomic-write.ts:1227-1500 | once this creation has returned normally among creations, no other has, and the target is the file it created |
| AtomicCall.Call.UnlinkIfUnchanged | src/agent-file/atomic-write.ts:1503-1626 | the same promises for the conditional unlink, the paths that must be absent seen absent after the capture |
| AtomicCall.InstallAlgebra | src/agent-file/atomic-write.ts:1214-1224 | linking the temporary, then disposing of the original and the temporary leaves exactly one name with one link |
| SetupUndo.Disk.PrepareDirectories | src/commands/setup.ts:514-554 | made directories are new, each inside the old tree or an earlier one, and nothing else changed; success and the one unrecorded directory are each decided by the tree, the plan and the faults |
| SetupUndo.Disk.RemoveCreated | src/commands/setup.ts:556-572 | reverse removal finds every made directory empty and gives back the tree before them; other paths are never touched |
| SetupUndo.Disk.CommitFile | src/commands/setup.ts:982-1037 | one planned file: skipped, deleted or replaced, going through exactly when its parent is a directory, no directory is in its place, a deletion has something to delete and no fault hits it; the record rollback receives describes exactly the change that took effect |
| SetupUndo.Disk.CommitFiles | src/commands/setup.ts:978-1038 | succeeds exactly when every file step would on the prepared tree; at every failure the tree differs from the prepared one exactly by the recorded mutations; on success every file is as rendered |
| SetupUndo.Disk.RestoreFiles | src/commands/setup.ts:626-660 | undoing owned mutations in reverse restores content and mode or absence of every path |
| SetupUndo.Disk.Commit | src/commands/setup.ts:976-1050 | succeeds exactly when no directory step stops, no check of the plan fails and every file step goes through, all decided by the tree, the plan and the faults; then files and directories are as planned and nothing else changed; on failure the whole tree is back with no failure reported, except exactly when the plan leaks a directory |
| SetupUndo.LeakExample | src/commands/setup.ts:524-546 | one new directory under the root whose read-back fails leaks; a fault past the plan does not |
| SetupUndo.StopsAt | src/commands/setup.ts:514-554 | only the first directory step that stops can leak |
| SetupUndo.LastMadeIsEmpty | src/commands/setup.ts:556-572 | the directory made last has no child once the later ones are gone |
| Settling.ReadIdenticalTarget | src/commands/use.ts:486-586 | the three answers are decided by the observations: a snapshot exactly when some attempt within the bound settles on it after inconclusive ones only, none exactly when one gives up or the last of fifty inconclusive ones found nothing, an error otherwise |
| Settling.FourWays | src/commands/use.ts:512-566 | every observation is exactly one of inconclusive, settled, given up and an error |
| Settling.AdoptedIsSettled | src/commands/use.ts:486-586 | an adopted snapshot has the wanted content and mode, one link, no quarantine, another inode than planned, and equals every target seen on the way |
| Settling.AdoptionIsUnique | src/commands/use.ts:486-586 | one trace of observations can be settled in only one way |
| Settling.ReadSettledBinding | src/commands/use.ts:648-765 | a snapshot, absence or a refusal is returned if and only if some round ends so after inconclusive rounds only, or none ended |
| Settling.FourRounds | src/commands/use.ts:664-748 | every round is exactly one of inconclusive, settled, absent and refused |
| Settling.SettledAgreesWithAll | src/commands/use.ts:648-765 | the snapshot returned equals every target observed, and no seen target ever vanished |
| Settling.AbsentSawNothing | src/commands/use.ts:683-724 | absence is returned only if neither a target nor a quarantine was ever seen |
| Paging.PageIsStretch | src/context/delivery.ts:893-939 | a page after a cursor is the next stretch of the full ordered list and its cursor the end of that stretch |
| Paging.FollowingListsEachOnce | src/context/delivery.ts:893-939 | for every limit, following the cursors lists each row exactly once, newest first, ids ascending |
| Paging.ReadAll | src/context/broker.ts:574-590 | the bounded paging loop returns the whole list, or fails exactly when it is longer than the pages hold |
| Paging.TaggedEntries | src/akinator/service.ts:187-215 | the scan terminates and returns the first `limit` candidates of the fully ordered list that are retrievable, none skipped, none twice |
| DeliveryHistory.PriorData | src/context/broker.ts:574-618 | the history state of a run, or a throw exactly when more than a thousand deliveries are stored |
| HistoryBasis.DeliveredExactly | src/context/broker.ts:596-601 | the items that count as delivered are exactly those of the deliveries in the history whose query is not the excluded one and whose entry has no helpful feedback, in listing order, each occurrence once |
| HistoryBasis.StaleExactly | src/context/broker.ts:602-605 | the stale items are exactly those whose entry is stored at a newer revision, in listing order, each with the stored revision |
| HistoryBasis.OthersAreListed | src/context/broker.ts:594-595 | the deliveries of a history are the listing with exactly the excluded one taken out |
| HistoryBasis.ListedInOrder | src/context/delivery.ts:893-939 | the listing is newest first, ties by identifier, no delivery twice |
| HistoryBasis.FeedbackEndsAttestation | src/context/broker.ts:596-601 | once an entry another delivery counted with gets helpful feedback, the delivery is not attested any more |
| HistoryBasis.RevisionEndsAttestation | src/context/broker.ts:602-605 | once an entry another delivery delivered has another, newer revision, the delivery is not attested any more |
| DeliveryHistory.AttestedIdInjective | src/context/broker.ts:620-631 | an identifier determines the query, the exclusion and the whole history it was computed from |
| DeliveryHistory.AttestedIffUnchanged | src/context/broker.ts:652-674 | a stored delivery is attested exactly when other deliveries, feedback-filtered items, staleness and same-query exclusion are what they were at recording |
| DeliveryHistory.RecordingKeepsBasis | src/context/broker.ts:1102-1117 | the history seen from a just recorded delivery is the one it was chosen from |
| DeliveryHistory.AttestedIdIsFresh | src/context/delivery.ts:800-815 | in every reachable state a new attested identifier is not stored yet |
| DeliveryHistory.InvAlways | src/context/broker.ts:1065-1144 | in every run each attested identifier was computed from deliveries recorded before it |
| DeliveryHistory.OnlyLatestAttested | src/context/broker.ts:652-674 | in every reachable state only the delivery recorded last can be attested |
| DeliveryHistory.LaterDeliveryEndsAttestation | src/context/broker.ts:652-674 | once the run holds a delivery unknown at recording, the older one is not attested, whatever feedback and revisions do |
| DeliveryHistory.AttestedRightAfter | src/context/broker.ts:1102-1139 | right after recording the new delivery is attested and no other is |
| ContextBroker.FindReplay | src/context/broker.ts:914-930 | returns the stored answer of the query with the least identifier whose entries are all retrievable at the delivered revision and which attests the current history, none only if there is none, and whether the query was answered before |
| ContextBroker.Broker.Prepare | src/context/broker.ts:997-1063 | replays a valid delivery, or prepares an identifier attesting the current history; throws exactly over the history bound |
| ContextBroker.Broker.Persist | src/context/broker.ts:1094-1120 | records only if run, retrieval state and history are still the prepared ones and the selected entries retrievable, and hands on the committed history hash; the identifier then attests the history at the moment of recording, whatever happened in between |
| ContextBroker.Broker.StillPrepared | src/context/broker.ts:866-911 | accepts exactly a database whose run state, retrieval state, selected entries and history hash are as prepared |
| ContextBroker.Broker.Confirm | src/context/broker.ts:1133-1139 | the second transaction accepts exactly a delivery still stored unchanged and attested in a state as prepared; the history is then the one committed |
| ContextBroker.SameHistory | src/context/broker.ts:900-911 | an unchanged history hash means an unchanged history, the same-query exclusion included |
| ContextBroker.QueryAgain | src/context/broker.ts:997-1144 | after recording, the same query replays that very delivery |
| GreedyReplay.CutEntry | src/context/broker.ts:799-812 | title, summary and body cut in a row are the first characters of the entry's text, and the flag tells whether anything was cut |
| GreedyReplay.StoredContext | src/context/broker.ts:787-832 | emitted text is the first min(budget, total) characters of the stored text, each piece a prefix of its own, remaining never negative, truncated exactly when the total exceeds the budget |
| DiscoveryLedger.BudgetSafe | src/akinator/skill-discovery-attempt.ts:371-459 | after any sequence of operations, reserved plus consumed queries and selections stay within the maxima, and each run and phase has at most one started attempt |
| DiscoveryLedger.FinishedForever | src/akinator/skill-discovery-attempt.ts:412-459 | a finished attempt replays its stored result after any further operations and leaves the table unchanged |
| DiscoveryLedger.ClaimTrap | src/akinator/skill-discovery-attempt.ts:396-459 | the integrity answer is given exactly when a completed attempt is claimed under another mode |
| DiscoveryLedger.TrapIsReached | src/akinator/skill-discovery-attempt.ts:412-459 | claiming, completing and claiming again under another mode gives the integrity answer, under the same mode the stored result |
| DiscoveryLedger.ClaimAnswers | src/akinator/skill-discovery-attempt.ts:429-459 | a fresh claim gets what it asks for or all that is left, and nothing of either kind once one is used up |
| DiscoveryLedger.ClaimExactly | src/akinator/skill-discovery-attempt.ts:412-459 | for every table: refused as invalid exactly outside the limits, granted exactly when the digest is unknown and its run and phase have no started attempt, in conflict exactly when one stands in the way, otherwise answered with the very summary or failure stored; only a grant changes the table |
| DiscoveryLedger.CompleteExactly | src/akinator/skill-discovery-attempt.ts:461-496 | accepted exactly for a started attempt, a storable summary and no more than was reserved; that row alone changes, into exactly that summary and its counts |
| DiscoveryLedger.FailExactly | src/akinator/skill-discovery-attempt.ts:498-525 | accepted exactly for a started attempt; that row alone changes, into exactly that failure with everything reserved consumed |
| DiscoveryLedger.FinishedAnswers | src/akinator/skill-discovery-attempt.ts:371-393 | after an accepted completion or failure and any further operations the same claim answers exactly that summary or failure |
| DiscoveryLedger.AlwaysSettled | src/akinator/skill-discovery-attempt.ts:461-525 | in every reachable table a completed attempt has consumed what its summary lists, a failed one everything reserved, a started one nothing |
| DiscoveryLedger.FinishingSettles | src/akinator/skill-discovery-attempt.ts:461-525 | completing returns exactly the unused reservation, failing returns nothing |
| DiscoveryLedger.Ledger.UsedBudget | src/akinator/skill-discovery-attempt.ts:396-410 | the summing loop computes reserved plus consumed of the run |
| DiscoveryLedger.Ledger.ClaimAttempt | src/akinator/skill-discovery-attempt.ts:412-459 | new table and answer are those of the claim transition; the invariant is kept |
| DiscoveryLedger.Ledger.CompleteAttempt | src/akinator/skill-discovery-attempt.ts:461-496 | new table and answer are those of the completion transition; the invariant is kept |
| DiscoveryLedger.Ledger.FailAttempt | src/akinator/skill-discovery-attempt.ts:498-525 | new table and answer are those of the failure transition; the invariant is kept |
| Supersession.ValidateSupersession | src/commands/import.ts:538-558 | accepts if and only if every replacement is in the archive and every chain ends; each entry is marked visiting at most once over the whole loop |
| Supersession.Walk | src/commands/export.ts:97-110 | one inner walk accepts only if its start's chain ends, rejects only if it does not |
| Supersession.CycleNeverEnds | src/commands/import.ts:550-550 | an entry that reaches itself has no ending chain |
| ArchiveFormat.ParseImport | src/commands/import.ts:371-443 | for every text: yields a document exactly when the text is the checksum line of its own payload followed by a manifest of this format and version that counts the records of each kind and by canonical lines of admissible records, and then the records of each kind in order |
| ArchiveFormat.ParseIff | src/commands/import.ts:371-443 | the same about the parser the laws use, both directions |
| ArchiveFormat.EditedIsRefused | src/commands/import.ts:380-385 | an archive edited anywhere behind its checksum line is refused |
| ArchiveFormat.ParsePrint | src/commands/export.ts:242-267 | parsing the printed text recovers workspace, entries, tags in entry order, links and audit in order |
| ArchiveFormat.SplitJoin | src/commands/import.ts:372-376 | splitting joined lines gives the lines back |
| ArchiveStore.IdentitiesAreExact | src/commands/import.ts:560-606 | the NUL-separated duplicate keys of tags and links cannot collide for identifiers the embedding queue admits |
| ArchiveStore.IdentitiesCollideOutsideTheQueue | src/commands/import.ts:561-569 | with a NUL in an identifier two different tags do collide and are rejected |
| ArchiveRules.ImportSucceedsIff | src/commands/import.ts:775-929 | for every text and database: an import succeeds exactly when the text is an archive whose entries obey the rules of their status, come once, end every replacement chain inside the archive, are all that tags, links and events refer to, agree with what is stored and, where new, have an identifier the queue admits; its report counts exactly the new ones |
| ArchiveRules.SoundByStatus | src/commands/import.ts:478-526 | what an entry must look like, status by status: replacement, verification time, order of times, hash and tags |
| ArchiveRules.RelatedExactly | src/commands/import.ts:560-606 | tags, links and events are accepted exactly when they name archived entries, relations and operations are known and no identity comes twice |
| ArchiveRules.TagsForIsFilter | src/commands/import.ts:797-803 | an entry gets exactly the tags that lines name for it, in line order |
| ArchiveRules.ExportLists | src/commands/export.ts:120-215 | an export lists exactly the entries of the workspace, the links that touch one of them and the events of the workspace or of one of them, each by its key |
| ArchiveRules.ExportSucceedsIff | src/commands/export.ts:118-267 | for every database: an export succeeds exactly when every entry of the workspace is a first revision that obeys the rules of its status, replacement chains end inside, nothing crosses the workspace and the lines are admitted |
| ArchiveLaws.RoundTrip | src/commands/export.ts:118-267 | an export imported into empty tables stores every entry as new, and exporting again gives the same bytes |
| ArchiveLaws.ImportOfOwnExport | src/commands/import.ts:775-929 | importing an export where it came from changes nothing and reports every entry as a duplicate |
| ArchiveLaws.ImportTwice | src/commands/import.ts:654-773 | importing any accepted archive again into the resulting tables inserts nothing and reports every entry as a duplicate |
| ArchiveLaws.ImportKeepsIntegrity | src/commands/import.ts:831-921 | an import keeps primary keys, the unique content index and all foreign keys |
| ArchiveLaws.ImportOnlyAdds | src/commands/import.ts:831-921 | no stored entry, link or audit event is changed or removed by an import |
| ArchiveLaws.ImportStoresExactly | src/commands/import.ts:775-929 | after an import every archived entry, link and event is stored as archived in the target workspace, and nothing else is new |
| ArchiveLaws.ImportKeepsSoundness | src/commands/import.ts:445-536 | imported entries satisfy the lifecycle, timestamp, hash and tag rules, and stored ones keep them |
| ArchiveLaws.DryRunForecasts | src/commands/import.ts:815-829 | a dry run succeeds with the report of the import, and the import then fails exactly on a new identifier the queue refuses |
| ArchiveLaws.DryRunMisleads | src/commands/import.ts:815-885 | an archive of one sound entry whose identifier ends in a line feed passes every check and the dry run and cannot be imported |
| ArchiveLaws.ExportedIsAcceptable | src/commands/import.ts:797-812 | every exported archive is read back as its rows and passes every check before the database |
| ArchiveLaws.TagsForTagsOf | src/commands/import.ts:797-804 | regrouping the flattened tag lines gives every entry its own tags in order |
| ArchiveLaws.ReplacementsStayInside | src/commands/import.ts:538-558 | an accepted archive is superseded only by its own entries |
| ArchiveImport.GroupTags | src/commands/import.ts:797-803 | the grouping loop gives each entry its tags in line order |
| ArchiveImport.ImportedEntries | src/commands/import.ts:804-804 | all entries regrouped into the target workspace, or a throw exactly when one breaks a lifecycle, hash or tag rule |
| ArchiveImport.DistinctEntries | src/commands/import.ts:805-809 | comparing set sizes detects exactly repeated ids and repeated content |
| ArchiveImport.ValidateRelated | src/commands/import.ts:560-606 | the three loops accept exactly when references stay inside, relations and operations are known, and no identity repeats |
| ArchiveImport.Admit | src/commands/import.ts:780-811 | admits exactly the archives that pass every check needing no database |
| ArchiveImport.PlanEntries | src/commands/import.ts:654-707 | succeeds exactly when every entry is new with new content or identical to the stored one; lists the new ones in order and counts the rest |
| ArchiveImport.PlanLinks | src/commands/import.ts:709-736 | succeeds exactly when stored links agree; lists the missing ones in order |
| ArchiveImport.PlanAudit | src/commands/import.ts:737-773 | succeeds exactly when stored events agree; lists the missing ones in order |
| ArchiveImport.Store.InsertCandidates | src/commands/import.ts:836-885 | inserts every row as a candidate with its hash, or stops at an identifier the queue refuses |
| ArchiveImport.Store.ApplyLifecycle | src/commands/import.ts:887-894 | the second pass turns the candidates into exactly the archived rows |
| ArchiveImport.Store.ImportWorkspace | src/commands/import.ts:775-929 | the row-by-row import computes exactly the import transition, leaves the tables alone on failure, and in a dry run only forecasts |
| ManagedBlock.MarkerPositions | src/agent-file/managed-block.ts:26-35 | the jumping scan finds every occurrence of a marker |
| ManagedBlock.ValidateIsExact | src/agent-file/managed-block.ts:37-60 | a region is reported if and only if there is exactly one begin and one end marker in order, each alone on its line; absence if and only if there is no marker |
| ManagedBlock.RegionIffParts | src/agent-file/managed-block.ts:37-60 | a text has a valid region exactly when it is a block between marker-free texts that end and start at a line boundary |
| ManagedBlock.NormalizedBlockOk | src/agent-file/managed-block.ts:92-94 | rewriting the line ends of a CR-free block gives a block |
| ManagedBlock.UpsertLaw | src/agent-file/managed-block.ts:96-112 | an upsert yields exactly one valid region equal to the normalised block, leaves all text outside it, plus a separator when appending, and reports created, unchanged or updated accordingly |
| ManagedBlock.RemoveLaw | src/agent-file/managed-block.ts:119-126 | removing gives back exactly the outside text, with no marker left, or deletes a file that was all block |
| ManagedBlock.RemoveWithoutRegion | src/agent-file/managed-block.ts:119-121 | a text without markers is given back as it is, one with malformed markers is refused |
| ManagedBlock.AppendedBehindBlankLines | src/agent-file/managed-block.ts:100-104 | an appended block follows two line ends after a text that ends in a line break and three after any other |
| ManagedBlock.CrLfRoundTrip | src/agent-file/managed-block.ts:92-94 | rewriting LF to CRLF and back gives the text again |
| ManagedBlock.CrLfBlockIsSame | src/agent-file/managed-block.ts:92-94 | a block with CRLF line ends is treated as the same block with LF ones |
| ManagedBlock.UpsertIdempotentIff | src/agent-file/managed-block.ts:88-112 | a second upsert changes nothing, except exactly after appending to a text ending in a bare CR without any CRLF |
| ManagedBlock.NotIdempotentAfterBareCr | src/agent-file/managed-block.ts:96-104 | the failing case on a concrete text |
| ManagedBlock.RebaseLaw | src/agent-file/managed-block.ts:67-86 | a rebase is exactly the upsert of the latest text, or a conflict exactly when its region is neither the planned nor the wanted one; it throws only on malformed markers |
| CapabilityCatalog.BoundedCodePointLength | src/akinator/capabilities.ts:163-171 | counts characters, no further than one beyond the limit |
| CapabilityCatalog.ReserveIdentities | src/akinator/capabilities.ts:257-285 | the first pass with its budget and early stop |
| CapabilityCatalog.SpendOnDescriptions | src/akinator/capabilities.ts:286-301 | the second pass in canonical order, its results put back where the items stand |
| CapabilityCatalog.NormalizeCatalog | src/akinator/capabilities.ts:245-305 | the two passes compute the normalised catalog |
| CatalogLaws.NormalizedExactly | src/akinator/capabilities.ts:245-305 | for every input: which identities are accepted and where the budget cuts, which list each goes to, what becomes of each description and what it costs in canonical order, and what every diagnostic counts |
| CatalogLaws.ReservedExactly | src/akinator/capabilities.ts:257-285 | the first pass accepts the well-formed items before the cut, which is the end or the first well-formed item the budget left does not cover |
| CatalogLaws.DescribedExactly | src/akinator/capabilities.ts:286-301 | the second pass: a description is the cleaned text cut to its limit, left out exactly when it is too long, not covered by the budget left at its turn or empty; the truncated count is the number of items that lost something |
| CatalogLaws.ListedByKind | src/akinator/capabilities.ts:280-284 | skills and tools are the accepted identities of their kind, each once and in input order |
| CatalogLaws.TurnsAreOrder | src/akinator/capabilities.ts:286-289 | descriptions are looked at by kind and name, equal ones in input order, each once |
| CapabilityCatalog.AcceptedPlusDropped | src/akinator/capabilities.ts:245-305 | for every input accepted plus dropped is received, and every accepted item is listed |
| CapabilityCatalog.DescriptionsDoNotDecide | src/akinator/capabilities.ts:257-285 | which identities are accepted, and the budget left for descriptions, do not depend on any description |
| CatalogDigest.OrderDoesNotMatter | src/akinator/capability-binding.ts:20-58 | for distinct identities within the item limit and the budget, every order of the catalog has the same digest |
| CatalogDigest.DigestExactly | src/akinator/capability-binding.ts:33-58 | what is hashed: exactly the distinct skills and the distinct tools in canonical order, the availability, the budget flag, and the diagnostics as they are for an unknown catalog, otherwise the number of distinct descriptors |
| CatalogDigest.DigestDetermines | src/akinator/capability-binding.ts:33-58 | catalogs with the same digest have the same skills and the same tools |
| CatalogDigest.ReserveFits | src/akinator/capabilities.ts:257-285 | when all identities fit, exactly the well-formed items are accepted |
| CatalogDigest.SortedPermuted | src/akinator/capabilities.ts:286-289 | the canonical order of distinct items does not depend on their input order |
| Intake.InvAlways | src/akinator/service.ts:230-311 | every sequence of starts, answers, replays and rejected calls keeps the intake invariant |
| Intake.IntakeInvariant | src/akinator/domain.ts:172-228 | answered plus missing is constant, one stored answer per question, each answer normalises to its field, never exhausted, ready exactly when all are answered, otherwise an unanswered field is asked |
| Intake.StartStores | src/akinator/domain.ts:151-170 | when a start succeeds, and what it stores: the task type hinted or else inferred, each text hint trimmed in its own field, nothing else changed |
| Intake.AsksInOrder | src/akinator/domain.ts:172-190 | after any calls a session is ready exactly when task type, target and expected result are filled in, and otherwise asks for the first of them that is not |
| Intake.EvaluateExactly | src/akinator/domain.ts:208-228 | the status of any profile after any number of questions |
| Intake.AnswerStores | src/akinator/domain.ts:257-289 | an accepted answer fills exactly the field asked for, raises the count by one and stores the answer; nothing else changes |
| Intake.QuestionCanBeAnswered | src/akinator/domain.ts:257-289 | an acceptable answer to the question asked is accepted and counts one |
| Intake.AnswersAreFinal | src/akinator/service.ts:280-291 | repeating an accepted answer replays it without change, a different one is refused |
| Intake.AnswerShrinksMissing | src/akinator/domain.ts:257-289 | answering removes exactly the asked field from the missing ones |
| Intake.Service.StartSession | src/akinator/service.ts:230-255 | new tables and reply are those of the start transition; the invariant is kept |
| Intake.Service.AnswerQuestion | src/akinator/service.ts:266-311 | new tables and reply are those of the answer transition; the invariant is kept |

## Left out

- `atomicWriteText` without an expectation, and `atomicReplaceTextWithGuard` as a protocol of its own; setup uses the latter as one step that fails before publication or with a committed error.
- AtomicCall.Call.Interact: a changed parent directory, symbolic links, size limits and UTF-8 errors appear only as faults; device numbers and file name syntax are not modelled, private names are tagged by owner and kind.
- SetupUndo.Disk.RestoreFiles: meets no fault of its own, and planned files have distinct paths; the inode of a restored file is a new one, as in the code.
- `use.ts` beyond the two observation loops (agent plan retries, restoring agent regions), and project registration.
- DeliveryHistory.OnlyLatestAttested: over runs in which no delivery is purged; a purge can bring an older basis back, and `AttestedIffUnchanged` says exactly when.
- ContextBroker.Broker.Persist: run and retrieval state are values that are compared; the write-queue adapter's single-invocation check, the caller's guard between the two state checks and the in-flight map are not modelled; ranking is a parameter.
- GreedyReplay.StoredContext: the comparison with the stored count and flag afterwards is not modelled.
- DiscoveryLedger.BudgetSafe: summaries carry the fields the budget and the mode depend on; other summary fields are opaque.
- ArchiveImport.Store.ImportWorkspace: every throw is one failure without its code; reading the file, the byte-layout validator, secret detection, field formats, structured-scope normalisation and the search projection are parameters or absent; a dry run without a database is the one over empty tables.
- ArchiveLaws.RoundTrip: the stored-row checks of export and the line validators of import are the same parameter.
- ManagedBlock.UpsertLaw: template-version reading is not modelled.
- CatalogDigest.OrderDoesNotMatter: the final hash is a function of the content shown equal; warnings and capability matching are not modelled.
- Intake.Service.AnswerQuestion: prompts, recommended tags, profile hashes and run intake links are not modelled.
- Commands that only parse arguments and print, embeddings, search, backup and diagnostics.
