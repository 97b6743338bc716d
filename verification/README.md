# Verification models for Redis internals and RepVGG re-parameterisation

Dafny models of the parts of this repository whose correctness is hardest to see from the code:
the vendored Redis 8.6 server in `redis-stable/` and the network definition in
`pytorch_cifar_models/repvgg.py`. `dafny verify dfyconfig.toml` checks the whole project.

| modules | what they model |
|---|---|
| AclRuleText, AclRules, AclEffects, AclSelectors | ACL command rules: the in-place rule log, the bitmap and first arguments, what each operation does to them, and the description that rebuilds them |
| AofManifests, AofRewrite, AofServers | the append-only file rewrite as a crash-safe protocol over manifest, BASE and INCR files |
| AofCodec, AofLoad, AofRecovery, AofFeed, AofFlush, AofTransactions, AofTails, AofResume, AofCrash | encoding, loading, recovery of a cut log, feeding with SELECT and timestamps, flushing with short writes, appending after a recovery, and all of it together for a server that stops at any moment |
| ChkIndex, ChkTables, ChkDecay, ChkUpdate, ChkOwner, ChkCounts, ChkHeap, ChkRuns, ChkExamples, ChkTopKs | the Cuckoo Heavy Keeper top-K sketch |
| Bits, Bitop, BitopWords, BitopCommands, Swar, Popcount, Bitpos, BitRanges, BitfieldOverflow, Bitfield | BITOP, BITCOUNT, BITPOS and BITFIELD on a zero-padded bit array |
| BlockedIndex, BlockedServers | clients blocked on keys and the ready-key queue |
| EvPort, EventLoops, Kqueue | the event loop registry with the event-port back end, and the kqueue merge |
| Bio, BioOrder, BioServers, BioDrain | background jobs, their completion responses and waiting for them, as interleavings of critical sections |
| RepVggFusion, RepVggModel | fusing three convolution and normalisation branches into one convolution |
| Ascii, Wrappers | lower case, and an optional value |

Each imperative component has a class or methods on arrays that change state as the code does, tied
by their contracts to functions on values; the properties are lemmas about those functions.

## Conventions

- Results of system calls, random draws, hashes, memory addresses and what the kernel returns are
  parameters, so a theorem holds for all of them.
- Machine integers are unbounded numbers with the reduction to their width written out where it can
  happen. Bytes are eight booleans, most significant first. Doubles are reals.
- Several promises of the documentation do not hold of the code. The model follows the code, and the
  exact condition under which the promise holds is proved:
  - The INCR file opened at `aof.c:824` is not in append mode, unlike the one at `aof.c:760`; a short
    write that is undone by truncation then leaves a hole (`RunConservesIff`, `HoleAfterUndoneWrite`).
  - A log cut inside a command of an open MULTI is truncated inside the transaction, and a torn
    timestamp line is left in the file; what is appended then is lost, or runs after the torn half of
    the transaction (`AppendAfterRecovery`, `AppendAnything`, `TornHalfRuns`).
  - A manifest persist that fails after its rename is followed by the removal of the BASE it names,
    and commands still in the buffer at the fork are replayed twice (`LastPersistExact`).
  - The all-commands flag of a selector is not rebuilt by its description, and first arguments with
    blanks are accepted although the log cannot replay them (`DescriptionFlag`, `FlagNotRebuilt`,
    `SplitsBackIffNoBlank`, `BlankFirstArgReplays`).
  - A lobby counter can exceed the promotion threshold, and a weighted decay can leave a counter as it
    was, against two comments in `chk.c` (`LobbyAboveExact`, `LobbyAboveThreshold`; `SearchRange`,
    `SearchLeavesThree`). The heap is given the count of another item's entry when a kick-out chain
    comes back to the slot or a contested lobby entry survives and is promoted (`TouchedOwner`,
    `HeapGetsForeignCount`, `HeapGetsAbsentItem`), and it loses its order when a recorded count then
    drops below its parent (`ReplaceExact`, `HeapGetsForeignCount`).
  - Saturating BITFIELD SET stores the maximum for some operands below the minimum (`NewValueExact`).
  - BITPOS clips two negative positions in the wrong order to the same position, where BITCOUNT
    answers an empty range; so a set bit can be found that is not counted (`RangesAgree`,
    `AnswersAgree`, `CrossedAnswers`).
  - `convert_to_inference_model(do_copy=True)` converts a copy that is dropped
    (`ConvertToInferenceModel`).
  - A descriptor registered with an empty mask stays associated without being registered
    (`CreateFileEvent`, `AddAssociated`).
  - The condition variable of a background worker is shared with the threads that drain its queue,
    and one signal wakes one waiter, so wake-ups are lost as soon as two threads drain
    (`DrainExact`, `TwoDrainersLose`); the server drains from its main thread.

## Model

| member | source | states |
|---|---|---|
| AclRuleText.RemoveCommandRule | redis-stable/src/acl.c:574-616 | the pointer and memmove loop leaves in the buffer exactly the space-joined rules that are neither the new rule nor one of its subrules, which extend its name with a bar |
| AclRuleText.PruneOne | redis-stable/src/acl.c:582-612 | one round of that loop skips or cuts out the rule at the cursor and keeps the rest of the buffer spelling the remaining rules |
| AclRuleText.CloseGap | redis-stable/src/acl.c:588-608 | moving the tail down over a removed rule with its separator leaves the other rules joined by single spaces |
| AclRuleText.SplitJoin | redis-stable/src/acl.c:673-706 | a rule list joined by spaces splits back into the same list |
| AclRules.NameOfParse | redis-stable/src/acl.c:1129-1206 | every understood command or category operation is logged under its own text, with `-` exactly for denials |
| AclRules.TokenOfParse | redis-stable/src/acl.c:620-628 | the logged token of an understood operation is the operation itself |
| AclRules.ActionShape | redis-stable/src/acl.c:1129-1206 | no operation but +@all and -@all touches the reserved bit, and first arguments are only given to commands without subcommands |
| AclRules.SameNameAbsorbs | redis-stable/src/acl.c:574-628 | performing a rule makes an earlier rule of the same name irrelevant, for commands, categories and first arguments |
| AclRules.SubRuleAbsorbed | redis-stable/src/acl.c:574-668 | a rule on a whole command makes earlier rules on its subcommands and first arguments irrelevant |
| AclRules.PruningIsInvisible | redis-stable/src/acl.c:574-668 | dropping everything a new rule supersedes does not change the permissions after the new rule |
| AclRules.PruneKeepsNormalForm | redis-stable/src/acl.c:574-628 | pruning keeps the log in normal form: no rule supersedes another |
| AclRules.StepIsFaithful | redis-stable/src/acl.c:1037-1206 | each understood operation keeps the log in normal form and performing, from +@all or -@all as the reserved bit says, to the selector's own permissions |
| AclRules.RunIsFaithful | redis-stable/src/acl.c:1037-1206 | the same for every selector reached by any list of understood operations from a fresh one |
| AclRules.ReplayOfNormalForm | redis-stable/src/acl.c:673-706 | replaying a log in normal form prunes nothing, gives the identical log, and performs exactly its rules |
| AclRules.DescriptionRebuilds | redis-stable/src/acl.c:760-813 | after any run the description is understood and rebuilds the same bitmap, first arguments and log, so the bitmap comparison before the panic never fails |
| AclRules.DescriptionFlag | redis-stable/src/acl.c:760-813 | the replayed description has the all-commands flag iff the reserved bit is set and the log denies nothing, and then every bit is set; it is the flag of the selector itself iff that has the flag, or the reserved bit is clear, or the log denies something |
| AclRules.FlagDeniesNothing | redis-stable/src/acl.c:560-569 | in every run a selector with the flag has no rule in its log that clears a bit |
| AclRules.FlagNotRebuilt | redis-stable/src/acl.c:560-569 | for every command, allowing all, denying it and allowing it again ends without the flag although the replayed description sets it |
| AclRules.SplitsBackIffNoBlank | redis-stable/src/acl.c:673-706 | a rule without quotes splits back to itself iff it holds no blank |
| AclRules.AnyFirstArgAccepted | redis-stable/src/acl.c:1140-1192 | every non-empty first argument without a bar is accepted, whatever else it holds |
| AclRules.BlankFirstArgIsNotReplayable | redis-stable/src/acl.c:1140-1192 | an accepted first argument with a blank does not split back into its own rule |
| AclRules.BlankFirstArgReplays | redis-stable/src/acl.c:673-706 | for all commands c and d, the first argument "x +d" of c sets no command bit, and the replay of its rule is two rules, which set the bit of d |
| AclSelectors.AclSelector.SetCommandBit | redis-stable/src/acl.c:560-569 | sets one bit; clearing gives up the all-commands flag; ids past the bitmap change nothing |
| AclSelectors.AclSelector.ChangePerm | redis-stable/src/acl.c:632-646 | writes the bits of a command and all its subcommands and resets the first arguments of the command, nothing else |
| AclSelectors.AclSelector.SetBitsForCategory | redis-stable/src/acl.c:654-668 | writes exactly the bits of the commands and subcommands of a category, also where a command inside the category has subcommands outside it |
| AclSelectors.AclSelector.AddAllowedFirstArg | redis-stable/src/acl.c:945-971 | adds a first argument once, ignoring case |
| AclSelectors.AclSelector.UpdateCommandRules | redis-stable/src/acl.c:620-628 | the log becomes the pruned log followed by the new rule, and the buffer spells it |
| AclSelectors.AclSelector.SetSelector | redis-stable/src/acl.c:1037-1206 | an operation either fails and changes nothing, or has exactly the effect of the specification on bitmap, first arguments, flag and log |
| AclSelectors.AclSelector.FlushAll | redis-stable/src/acl.c:1054-1067 | +@all and -@all make all bits equal, clear first arguments and log, and set the flag accordingly |
| AclSelectors.PerformAll | redis-stable/src/acl.c:673-706 | performing a list of operations in place is the run of the specification |
| AclSelectors.Rebuild | redis-stable/src/acl.c:760-798 | the fake selector built by replaying the description has the same permissions and log |
| AclSelectors.DescribeCommandRules | redis-stable/src/acl.c:760-813 | the bitmap comparison succeeds, and the text is the opening +@all or -@all and the log |
| AclEffects.FlushEffect | redis-stable/src/acl.c:1053-1067 | "allcommands" and "+@all", in any spelling and on any selector, leave every bit set, no first argument and no rule; "nocommands" and "-@all" leave no bit set |
| AclEffects.CategoryEffect | redis-stable/src/acl.c:654-668 | for every command table, allowing or denying a category gives the value to exactly its commands, all subcommands of those, and every subcommand that is itself in the category, and empties the first arguments of exactly the members |
| AclEffects.CommandEffect | redis-stable/src/acl.c:632-646 | a rule on a command gives the value to it and all its subcommands, empties its own first arguments, and changes nothing else |
| AclEffects.SubEffect | redis-stable/src/acl.c:1166-1176 | a rule on a subcommand changes its bit and its first arguments only |
| AclEffects.FirstArgEffect | redis-stable/src/acl.c:945-971 | a first argument of a command without subcommands is added to those of that command; no bit changes |
| AclEffects.LogEffect | redis-stable/src/acl.c:574-628 | every other operation drops from the log exactly the rules on the same name or on a part of it after a bar, keeps the others in order, and is logged last |
| AclEffects.NoSignRefused | redis-stable/src/acl.c:1203-1206 | anything else without a sign is a syntax error |
| AclEffects.UnknownCategoryRefused | redis-stable/src/acl.c:1195-1202 | an unknown category is refused |
| AclEffects.UnknownCommandRefused | redis-stable/src/acl.c:1130-1135 | an unknown command is refused |
| AclEffects.BarRefused | redis-stable/src/acl.c:1150-1176 | after a bar, nothing is a syntax error, and an unknown subcommand of a command that has some is refused |
| AclEffects.BarDenialRefused | redis-stable/src/acl.c:1188-1194 | a denial with a bar needs a known subcommand |
| AclEffects.ChildRefused | redis-stable/src/acl.c:1150-1158 | a first argument of a subcommand is refused |
| AofManifests.MarkRewrittenIncrAofAsHistory | redis-stable/src/aof.c:506-536 | the loop from the tail, with its exception for the file being written, computes the specified lists |
| AofManifests.NewIncrWellNumbered | redis-stable/src/aof.c:468-478 | a new INCR keeps the numbers of the manifest unique and without a gap |
| AofManifests.RewrittenWellNumbered | redis-stable/src/aof.c:440-536 | a manifest with a new BASE and marked INCRs is still well numbered, with the rewritten files in the history |
| AofManifests.MarkingForgetsNothing | redis-stable/src/aof.c:506-536 | marking moves files between lists and never drops a name |
| AofRewrite.NextKeeps | redis-stable/src/aof.c:2604-2670 | every step that is not a bad last persist keeps the invariant that ties disk, manifests, child snapshot and buffer together |
| AofRewrite.PersistBaseKeeps | redis-stable/src/aof.c:2839-2860 | the switch to the new BASE keeps it when the persist succeeds, fails before the rename, or fails after it without unlinking |
| AofRewrite.DeleteHistoryKeeps | redis-stable/src/aof.c:682-706 | deleting history files one by one never touches what recovery reads |
| AofRewrite.CrashSafety | redis-stable/src/aof.c:2604-2670 | after any run of feeds, flushes, rewrites, child results, renames, persists, deletions, crashes and restarts without a bad last persist, replaying the manifest on disk gives exactly the commands flushed so far |
| AofRewrite.LastPersistExact | redis-stable/src/aof.c:2761-2870 | the last persist of a rewrite leaves a recoverable disk iff it is not one that failed after the rename and unlinked the BASE, nor one that succeeded with commands pending since before the fork |
| AofRewrite.BadPersistBreaks | redis-stable/src/aof.c:2843-2855 | in the first case recovery finds no BASE; in the second it replays the pending commands twice |
| AofRewrite.BadIsReachable | redis-stable/src/aof.c:2604-2670 | both situations are reached by short runs from the start |
| AofServers.AofServer.FeedAppendOnlyFile | redis-stable/src/aof.c:1409-1448 | a command joins dataset and buffer |
| AofServers.AofServer.FlushAppendOnlyFile | redis-stable/src/aof.c:1147-1355 | a prefix of the buffer reaches the INCR being written |
| AofServers.AofServer.OpenNewIncrAofForAppend | redis-stable/src/aof.c:804-868 | either both the file and the manifest that lists it are in place, or the manifest in memory is unchanged |
| AofServers.AofServer.RewriteAppendOnlyFileBackground | redis-stable/src/aof.c:2604-2670 | flush, new INCR, fork: on success the child works on the dataset at the fork |
| AofServers.AofServer.ChildTerminated | redis-stable/src/aof.c:2761-2779 | on success the temporary file holds the snapshot |
| AofServers.AofServer.AdoptBase | redis-stable/src/aof.c:2776-2841 | the child's file gets the new BASE name and the copy of the manifest marks the rewritten INCRs |
| AofServers.AofServer.PersistBaseManifest | redis-stable/src/aof.c:2843-2860 | the copy becomes the manifest iff it was persisted |
| AofServers.AofServer.DelHistoryFiles | redis-stable/src/aof.c:682-706 | BASE and INCRs stay; the history empties, or nothing happens when garbage collection is off |
| AofServers.AofServer.BackgroundRewriteDoneHandler | redis-stable/src/aof.c:2761-2870 | the handler as a whole: on full success the next BASE number, only the INCR being written, and with garbage collection no history; the old manifest otherwise |
| AofServers.AofServer.Restart | redis-stable/src/aof.c:727-782 | after a crash the dataset is what the disk recovers |
| AofServers.AofServer.DiskRecovers | redis-stable/src/aof.c:2761-2870 | for the object with files, lists and buffer: whenever no last persist was bad, the disk recovers exactly what was flushed |
| AofCodec.NumberDec | redis-stable/src/aof.c:1605-1632 | a decimal number is read back whatever non-digit ends it |
| AofCodec.ReadCommand | redis-stable/src/aof.c:1357-1380 | parsing an encoded command, with arbitrary binary arguments and anything after it, gives the command and the rest |
| AofCodec.ArgcWraps | redis-stable/src/aof.c:1606-1607 | the bound on the argument count is exact: with 2^31 arguments or more the bytes are never read as the same command |
| AofCodec.ReadNote | redis-stable/src/aof.c:1390-1399 | a timestamp line is skipped |
| AofCodec.ReadCutCommand | redis-stable/src/aof.c:1597-1648 | a command cut anywhere inside is a short read, never a shorter command |
| AofCodec.ReadCutNote | redis-stable/src/aof.c:1597-1604 | a timestamp line cut anywhere inside is still skipped |
| AofTails.CommandOnTheWire | redis-stable/src/aof.c:1357-1380 | the bytes of a command |
| AofTails.NoteOnTheWire | redis-stable/src/aof.c:1390-1399 | the bytes of a timestamp |
| AofTails.SelectOnTheWire | redis-stable/src/aof.c:1427-1434 | the bytes of the SELECT that the feeder writes |
| AofLoad.LoadSingleAppendOnlyFile | redis-stable/src/aof.c:1507-1734 | the loading loop with its offsets in local variables computes the specified result |
| AofLoad.LoopThrough | redis-stable/src/aof.c:1581-1700 | the loop goes through an encoded log item by item whatever follows |
| AofLoad.CutShape | redis-stable/src/aof.c:1597-1648 | a log cut at any byte is whole items and a proper piece of the next |
| AofLoad.ValidIsBoundary | redis-stable/src/aof.c:1697-1697 | the recorded end of the last valid command is an item boundary |
| AofLoad.MultiIsBoundary | redis-stable/src/aof.c:1660-1660 | the offset recorded before MULTI is a boundary, and nothing has run since while the transaction is open |
| AofLoad.TruncatedLoad | redis-stable/src/aof.c:1581-1734 | loading a log cut at any byte succeeds, runs exactly the complete commands outside an unclosed MULTI, and any truncation falls on a command boundary |
| AofTransactions.Kinds | redis-stable/src/aof.c:1660-1668 | which words, in any spelling, open and close a transaction |
| AofTransactions.TransactionLoads | redis-stable/src/aof.c:1581-1714 | for all ordinary commands before, inside and after a transaction whose two words are in any spelling, the bytes load for every configuration with each command run once and in order, and the file is left alone |
| AofTransactions.CutTransaction | redis-stable/src/aof.c:1702-1742 | the same bytes cut anywhere after MULTI and before the end of EXEC run none of the transaction, for every configuration; without truncated loading the load fails and the file stays |
| AofTransactions.StrictLoad | redis-stable/src/aof.c:1702-1742 | a log cut at any byte, truncated loading off: the same commands run, the file never changes, and the load succeeds iff the cut is inside no command and no transaction is open |
| AofTransactions.LoneExec | redis-stable/src/aof.c:1660-1683 | an EXEC outside a transaction does nothing |
| AofTransactions.SelectExact | redis-stable/src/aof.c:1664-1683 | a SELECT in any spelling moves to the database its one argument writes, and does nothing with any other argument |
| AofTails.CorruptTail | redis-stable/src/aof.c:1744-1763 | a log followed by what is no log: its commands run, and the load recovers, cutting the file where they end, iff the tail is shorter than the limit |
| AofTails.UnknownStops | redis-stable/src/aof.c:1648-1658 | an unknown command ends the load as failed after what came before has run, and the file stays |
| AofTails.NumberText | redis-stable/src/aof.c:1605-1632 | white space in front of a number is skipped and a sign is taken |
| AofTails.NoCount | redis-stable/src/aof.c:1606-1607 | an argument count below one is a format error |
| AofRecovery.FileShape | redis-stable/src/aof.c:1702-1734 | which bytes recovery leaves in the file |
| AofRecovery.ReloadSame | redis-stable/src/aof.c:1702-1734 | loading the recovered file again runs the same commands, and changes it again only if it was cut inside an open transaction |
| AofRecovery.AppendAfterRecovery | redis-stable/src/aof.c:1702-1734 | ordinary commands appended after a recovery are all run by the next load iff the cut tore neither a note nor a command of an open transaction |
| AofRecovery.OpenTransactionSwallows | redis-stable/src/aof.c:1702-1734 | in the second case the next load throws away everything appended |
| AofRecovery.LoadAfterTornNote | redis-stable/src/aof.c:1597-1604 | in the first case the next load ends with a format error |
| AofRecovery.LoadAfterKept | redis-stable/src/aof.c:1581-1700 | otherwise the appended items are run on top of what was kept |
| AofResume.AppendAnything | redis-stable/src/aof.c:1581-1734 | for everything that can be appended, MULTI, EXEC and notes included, exactly which commands the next load runs, in all cases of the cut |
| AofResume.ExecRunsQueueFirst | redis-stable/src/aof.c:1660-1700 | an EXEC that reaches a client with an open transaction has the effect of executing the open queue first and then everything appended |
| AofResume.TornHalfRuns | redis-stable/src/aof.c:1702-1734 | after a cut inside a transaction and an appended EXEC the torn half of the transaction is run: the next load runs as many commands too many as it holds |
| AofResume.TornNoteMerges | redis-stable/src/aof.c:1597-1604 | a torn timestamp line and a timestamp line appended to it are skipped as one line |
| AofFeed.CatGenericCommand | redis-stable/src/aof.c:1357-1380 | appends the RESP encoding of the command |
| AofFeed.Feeder.FeedAppendOnlyFile | redis-stable/src/aof.c:1409-1448 | appends the timestamp when due, SELECT on a change of database, then the command, and remembers both |
| AofFeed.FeedAllAgrees | redis-stable/src/aof.c:1409-1448 | replaying what was fed stays in step with the intended database of each command |
| AofTails.MemoryMeans | redis-stable/src/aof.c:1409-1434 | the feeder remembers the database of the last command that had one, and the latest time |
| AofTails.FeedExact | redis-stable/src/aof.c:1409-1448 | a command is preceded by a SELECT iff it has a database and the last one that had one had another, and by a timestamp iff its time is later than all before |
| AofFeed.FeedRoundTrip | redis-stable/src/aof.c:1409-1448 | whatever is fed after a reset, the loader recovers the same commands in order, each in its own database, up to an unclosed MULTI |
| AofFeed.ContinueAfterRecovery | redis-stable/src/aof.c:2616-2618 | a server that recovers a cut log, resets the selected database and goes on feeding loads back what it ran and all it fed |
| AofFlush.AofWriteLoop | redis-stable/src/aof.c:1109-1126 | the write loop with partial writes and interruptions computes the specified file and count |
| AofFlush.AofWriteAppends | redis-stable/src/aof.c:1109-1126 | on a descriptor that writes at the end, exactly the reported prefix is appended |
| AofFlush.FlushConserves | redis-stable/src/aof.c:1147-1355 | file followed by buffer stays everything fed, the recorded size stays the file length, and the descriptor stays at the end iff it is in append mode or no short write was undone |
| AofFlush.RunConserves | redis-stable/src/aof.c:1147-1355 | the same over every run of feeds and flushes in append mode, with delayed flushes, short writes, successful and failed truncation and errors |
| AofFlush.FlushConservesIff | redis-stable/src/aof.c:1147-1355 | through any descriptor, in append mode or left past the end, a call conserves the bytes iff it does not misplace a write |
| AofFlush.RunConservesIff | redis-stable/src/aof.c:804-868 | over every run through the descriptor without append mode, the bytes are conserved after every event iff no write that stays follows an undone one |
| AofFlush.FsyncStarts | redis-stable/src/aof.c:1152-1355 | exactly when a call starts an fsync, under each policy, and that the recorded offset moves then and only then, to the recorded size |
| AofFlush.RunSynced | redis-stable/src/aof.c:1323-1355 | over every run that conserves the bytes, the recorded fsync offset is the length the file had when the last fsync was started |
| AofFlush.EverySecondCovers | redis-stable/src/aof.c:1347-1355 | under the every-second policy, with a second passed and no fsync under way, a call that leaves the buffer empty leaves nothing uncovered |
| AofFlush.RunSpaced | redis-stable/src/aof.c:1347-1355 | under the every-second policy at most one fsync is started in any second |
| AofFlush.PostponesExact | redis-stable/src/aof.c:1182-1206 | exactly when a call puts a write off, and that any other call writes and ends the postponement, with the error flag set iff something stayed in the buffer |
| AofFlush.NeverTwoSeconds | redis-stable/src/aof.c:1189-1206 | nothing is put off for two seconds |
| AofFlush.ExitsExact | redis-stable/src/aof.c:1278-1346 | the process ends iff every write is to be synced and the write fell short or the fsync failed |
| AofFlush.HoleAfterUndoneWrite | redis-stable/src/aof.c:824-824 | a descriptor opened without append mode leaves a hole of NULs after an undone short write |
| AofFlush.FlushServer.FlushAppendOnlyFile | redis-stable/src/aof.c:1147-1355 | the method on the server fields computes the specified outcome |
| AofCrash.ServeSound | redis-stable/src/aof.c:1147-1448 | over every run of executed commands and flushes the file is a prefix of the encoding of the commands fed |
| AofCrash.CrashRecovers | redis-stable/src/aof.c:1147-1734 | a server stopped at any moment, its file cut at any byte: the load runs exactly the commands that lie wholly within what is left, in order, each in its database, without those of an open transaction; if the cut keeps the recorded fsync offset, the commands within that offset are among them |
| AofCrash.AlwaysIsDurable | redis-stable/src/aof.c:1278-1346 | with fsync on every write, once a flush has returned every command fed before it is within the synced bytes |
| AofCrash.CutRuns | redis-stable/src/aof.c:1409-1448 | a feeder's log cut at any byte, also between a SELECT or timestamp and its command, holds exactly the runs of the commands wholly within |
| AofCrash.FedNests | redis-stable/src/aof.c:1409-1448 | the feeder never logs a MULTI inside an open transaction |
| ChkIndex.XorMaskTwice | redis-stable/src/chk.c:169-171 | exclusive or with the same number under a power-of-two mask is undone by repeating it |
| ChkIndex.AltTwice | redis-stable/src/chk.c:169-171 | the alternate index of the alternate index is the index |
| ChkIndex.AltBits | redis-stable/src/chk.c:169-171 | bit by bit, the paired index is the exclusive or of the index and the multiplied fingerprint |
| ChkTables.KeyOfExact | redis-stable/src/chk.c:173-186 | a slot can hold an item iff it is in one of the two buckets paired by the item's fingerprint |
| ChkTables.KickoutKeeps | redis-stable/src/chk.c:248-281 | the kick-out chain, however it ends, keeps every live entry in its pair of buckets, no item twice, all counters bounded, and empties no heavy slot |
| ChkUpdate.CheckHeavyKeeps | redis-stable/src/chk.c:196-234 | bumping or placing keeps the invariant; nothing is touched iff all four heavy slots hold other items |
| ChkUpdate.TryPromoteKeeps | redis-stable/src/chk.c:286-328 | promotion over the weaker heavy entry keeps the invariant for every draw |
| ChkUpdate.CheckLobbyKeeps | redis-stable/src/chk.c:331-365 | raising a lobby entry keeps the invariant |
| ChkUpdate.EnterLobbyKeeps | redis-stable/src/chk.c:480-505 | entering an empty lobby slot keeps the invariant |
| ChkUpdate.ContestKeeps | redis-stable/src/chk.c:507-536 | decaying a lobby entry, replacing it and promoting keeps the invariant for every draw |
| ChkOwner.KickoutByRoute | redis-stable/src/chk.c:248-281 | after a kick-out chain every slot holds the last entry that came to it on the route computed from the slots before, or what it held, and the lobby is untouched |
| ChkOwner.TouchedOwner | redis-stable/src/chk.c:456-536 | for every update, the heavy slot handed to the heap records the updated item iff a condition on the slots before the call holds: the item was found or placed there, or the promoted entry is its own and the chain does not leave another entry in that slot |
| ChkOwner.LobbyAboveExact | redis-stable/src/chk.c:456-536 | for every update, a lobby counter at or below the promotion threshold is above it afterwards iff its entry was replaced with more than the threshold left of the weight and the promotion failed |
| ChkCounts.HeavyGains | redis-stable/src/chk.c:196-213 | for every update of an item with a heavy entry, the slots afterwards are the old ones with exactly the weight added there |
| ChkCounts.FreeHeavyGets | redis-stable/src/chk.c:214-234 | an item without an entry and with a free heavy slot gets the first one, with exactly its weight |
| ChkCounts.LobbyGains | redis-stable/src/chk.c:331-365 | an item in, or new to, the lobby gains exactly the weight below the threshold; from there it stays at the threshold iff its promotion is refused, and otherwise leaves the lobby |
| ChkCounts.ContestGives | redis-stable/src/chk.c:507-536 | what a contest leaves in the lobby, for every weight and both draws, and that nothing else in any lobby changes |
| ChkCounts.UpdateCounts | redis-stable/src/chk.c:456-536 | through a whole update a heavy count changes only for the updated item, by exactly the weight; an item that becomes heavy enters with its weight or with the count it takes over; at most one other item stops being heavy |
| ChkCounts.RunCounts | redis-stable/src/chk.c:456-536 | over every run and every draw, while an item stays heavy its count is the one it had plus the sum of its own weights since |
| ChkCounts.KickoutMakesNothing | redis-stable/src/chk.c:248-281 | a kick-out chain makes up no counter |
| ChkCounts.KickoutLosesOne | redis-stable/src/chk.c:248-281 | and loses at most one entry |
| ChkCounts.ChainLength | redis-stable/src/chk.c:248-281 | a chain makes at most 16 moves, all of entries with at least 0.8 percent of the total, and exactly 16 among nothing but such |
| ChkCounts.MoveTo | redis-stable/src/chk.c:262-280 | each move goes to the weaker or an empty slot of the entry's other bucket |
| ChkExamples.HeapGetsForeignCount | redis-stable/src/chk.c:538-571 | a run from the empty structure whose eighth update puts the count 41 of another item in the heap while the item's own entry has 22, and whose ninth breaks the heap order |
| ChkExamples.HeapGetsAbsentItem | redis-stable/src/chk.c:507-536 | a run from the empty structure whose eighth update hands the heap a slot for an item that has no entry |
| ChkExamples.LobbyAboveThreshold | redis-stable/src/chk.c:507-536 | a run from the empty structure that leaves a lobby counter of 99 |
| ChkExamples.SearchLeavesThree | redis-stable/src/chk.c:413-452 | with base 1.5 a weight of 2 leaves a count of 3 as it was, for every draw |
| ChkRuns.RunTopHeap | redis-stable/src/chk.c:456-576 | over every run of the whole structure the heap has at most one bucket per item, and only for items used |
| ChkRuns.ListedKeeps | redis-stable/src/chk.c:538-576 | one update of the heap keeps buckets distinct, adds at most the item, and an expelled item was there and is not any more |
| ChkUpdate.UpdateKeeps | redis-stable/src/chk.c:456-536 | a whole update keeps the invariant, for every item, weight and draw |
| ChkUpdate.RunInv | redis-stable/src/chk.c:456-536 | in every run, live entries belong to recorded items, sit in one of their two buckets, no item is live twice, nobody waits in a lobby while a heavy slot of its buckets is free, no counter exceeds the total, and a lobby counter fits its byte |
| ChkUpdate.HeavyNeverEmpties | redis-stable/src/chk.c:456-536 | an occupied heavy slot is occupied in every later state |
| ChkUpdate.EntryPlacement | redis-stable/src/chk.c:173-186 | each live entry has the fingerprint of some recorded item and is in that item's bucket of its table |
| ChkDecay.FillTables | redis-stable/src/chk.c:137-144 | the three lookup tables hold the closed sums and powers |
| ChkDecay.DecayCounter | redis-stable/src/chk.c:399-452 | binary search finds the count a linear search would, and all other cases match their definition |
| ChkDecay.SearchRange | redis-stable/src/chk.c:413-452 | the weighted search never empties an entry, and leaves it unchanged iff the weight is below the exact cost of one step but not below its integer part |
| ChkDecay.OneOperation | redis-stable/src/chk.c:399-410 | one operation takes one off a count with probability 1 / decay^count |
| ChkDecay.ManyOperations | redis-stable/src/chk.c:411-452 | what several at once do, by powers of the base and their sums |
| ChkDecay.ExpDecayClosed | redis-stable/src/chk.c:137-144 | the expected number of operations in closed form |
| ChkHeap.SiftPermutes | redis-stable/src/chk.c:75-105 | sifting down permutes the buckets |
| ChkHeap.SiftOrders | redis-stable/src/chk.c:75-105 | it restores the heap order when only the start may be too large |
| ChkHeap.ReplaceExact | redis-stable/src/chk.c:538-571 | replacing a bucket of an ordered heap and sifting it restores the order iff it is the root or not below its parent, so always when the count did not drop |
| ChkHeap.HeapifyDown | redis-stable/src/chk.c:75-105 | the loop that moves children into a hole computes that sift |
| ChkHeap.CheckExistInHeap | redis-stable/src/chk.c:62-73 | finds the last bucket with the item and its hash, or none |
| ChkHeap.RecordKeeps | redis-stable/src/chk.c:538-571 | each item has at most one bucket; an item that enters takes the place of the expelled one, and no other comes or goes |
| ChkHeap.RecordExact | redis-stable/src/chk.c:538-571 | a count below the root changes nothing; otherwise the bucket of the item, or else the root, becomes its bucket with exactly that count, and no other bucket changes |
| ChkHeap.RootIsLeast | redis-stable/src/chk.c:538-550 | the root of an ordered heap has the least count |
| ChkTopKs.ChkTopK.CheckHeavyEntries | redis-stable/src/chk.c:196-234 | the nested loops over the arrays compute the specified slots and position |
| ChkTopKs.ChkTopK.KeyParts | redis-stable/src/chk.c:173-186 | the fingerprint is the low 16 bits of the hash and the first bucket the low bits of its high half |
| ChkTopKs.ChkTopK.KickOut | redis-stable/src/chk.c:248-281 | the loop over the arrays computes the specified chain |
| ChkTopKs.ChkTopK.TryPromoteAndKickout | redis-stable/src/chk.c:286-328 | the arrays after a promotion are the specified slots |
| ChkTopKs.ChkTopK.CheckLobbyEntries | redis-stable/src/chk.c:331-365 | the same for the lobby check |
| ChkTopKs.ChkTopK.ContestLobby | redis-stable/src/chk.c:507-536 | the same for the decay of a contested lobby entry |
| ChkTopKs.ChkTopK.UpdateHeap | redis-stable/src/chk.c:538-571 | the heap array after an update is the specified one, with the expelled item |
| ChkTopKs.ChkTopK.Update | redis-stable/src/chk.c:456-576 | one update in place: slots, heap and total are one step of the run of the specification, the invariant is kept, no heavy slot emptied, and an expelled item was in the heap and is not any more |
| RepVggFusion.NormaliseIsAffine | pytorch_cifar_models/repvgg.py:117-143 | batch normalisation is scaling by gamma over std and adding the fused bias |
| RepVggFusion.FusedConv | pytorch_cifar_models/repvgg.py:105-143 | the fused kernel convolves to the scaled sum of the 3x3, the padded 1x1 and the identity branch, for any group and border |
| RepVggFusion.FusionIsExact | pytorch_cifar_models/repvgg.py:87-143 | at every output position, for all weights, groups, strides, sizes and zero-padded borders, the fused convolution equals the sum of the branches |
| RepVggFusion.TapReads | pytorch_cifar_models/repvgg.py:53-58 | which pixel each tap of a kernel reads |
| RepVggFusion.Padding | pytorch_cifar_models/repvgg.py:53-58 | every pixel is read as it is, and every position outside as zero |
| RepVggFusion.NormaliseAnchors | pytorch_cifar_models/repvgg.py:53-58 | normalisation takes the mean to beta and one deviation above it to beta plus gamma |
| RepVggModel.BranchesHaveOneExtent | pytorch_cifar_models/repvgg.py:63-85 | the padded 3x3 and the unpadded 1x1 convolution have the same output size, equal to the input size at stride 1 |
| RepVggModel.FuseSameForward | pytorch_cifar_models/repvgg.py:87-143 | the deployed block is the same function on images as the training block, nonlinearity included |
| RepVggModel.StackSame | pytorch_cifar_models/repvgg.py:197-206 | deploying all blocks of a stack keeps the function of the stack |
| RepVggModel.RepVGGBlock.SwitchToDeploy | pytorch_cifar_models/repvgg.py:145-159 | drops the branches, keeps the forward function on every image, and does nothing the second time |
| RepVggModel.RepVGG.CopyBlocks | pytorch_cifar_models/repvgg.py:209-209 | fresh blocks of the same shape and parameters |
| RepVggModel.SwitchAll | pytorch_cifar_models/repvgg.py:210-212 | every block ends up deployed from the form it had |
| RepVggModel.RepVGG.ConvertToInferenceModel | pytorch_cifar_models/repvgg.py:208-212 | converts every block in place and keeps the network function; with do_copy it converts fresh copies and the model itself stays as it was |
| Bitop.FinishIsResult | redis-stable/src/bitops.c:1311-1338 | masking the repeated bits once at the end gives the definition of every operator |
| Bitop.TailPush | redis-stable/src/bitops.c:1371-1409 | masking them at every step gives the same for ONE |
| Bitop.AccPush | redis-stable/src/bitops.c:1212-1290 | one more source updates the running value as the operator says |
| BitopWords.CombineWord | redis-stable/src/bitops.c:1212-1290 | a word-wide update acts on its eight bytes separately |
| BitopWords.OneBlock | redis-stable/src/bitops.c:1311-1338 | ONE on a block of four words gives exactly the bits set in one source |
| BitopWords.WordPrefix | redis-stable/src/bitops.c:1189-1340 | the prefix computed by blocks holds the definition bit by bit, for all eight operators |
| BitopCommands.EarlyExit | redis-stable/src/bitops.c:1350-1417 | leaving the source loop once no later source can matter gives the values of the full loop |
| BitopCommands.TailByte | redis-stable/src/bitops.c:1344-1432 | one byte of the tail holds the definition bit by bit |
| BitopCommands.Lengths | redis-stable/src/bitops.c:1128-1159 | the longest length, and a length every source has; a missing key counts as empty |
| Bitop.OnTwo | redis-stable/src/bitops.c:1212-1290 | all operators on two sources, spelled out |
| Bitop.OnThree | redis-stable/src/bitops.c:1212-1290 | all operators on three sources, spelled out |
| BitopCommands.AcceptsExact | redis-stable/src/bitops.c:1080-1127 | how many sources each operator takes |
| BitopCommands.BitopCommand | redis-stable/src/bitops.c:1080-1455 | rejects exactly the wrong key counts, and stores a string as long as the longest source whose every bit is the definition on the zero-padded sources |
| Swar.ByteCountsSum | redis-stable/src/bitops.c:122-142 | after the three adding steps each byte of the word holds the count of its own bits |
| Swar.TopByte | redis-stable/src/bitops.c:136-142 | the multiplication brings the sum of the lanes to the top byte |
| Popcount.LaneSumTotal | redis-stable/src/bitops.c:122-142 | seven words never overflow a byte lane, and their lanes add up to the bits of their bytes |
| Popcount.SevenWords | redis-stable/src/bitops.c:110-143 | the 28-byte step counts exactly its 28 bytes |
| Popcount.RedisPopcount | redis-stable/src/bitops.c:65-150 | the number of set bits of the string, for both paths and every alignment |
| Popcount.CountByPopcnt | redis-stable/src/bitops.c:83-106 | the four interleaved counters add up to the bits passed |
| Popcount.CountEdges | redis-stable/src/bitops.c:1534-1550 | the count of the bytes minus the masked edge bytes is the count of the bit range |
| Popcount.BitcountCommand | redis-stable/src/bitops.c:1458-1553 | the number of set bits at positions in the normalised range, 0 for a missing key or an empty range |
| Bits.MaskNumbers | redis-stable/src/bitops.c:1613-1620 | the two edge masks, computed by shifts, have exactly the first or the last bits set |
| Bitpos.RedisBitpos | redis-stable/src/bitops.c:390-475 | the first position of the bit, for every alignment; past the end for a clear bit and -1 for a set bit when there is none, so the final panic is unreachable |
| Bitpos.LoadWord | redis-stable/src/bitops.c:433-449 | the last word is the next eight bytes, first byte most significant, padded with zeros |
| Bitpos.ThreePartScan | redis-stable/src/bitops.c:1649-1692 | masked first byte, whole bytes and masked last byte together find the least position in the range |
| Bitpos.BitposCommand | redis-stable/src/bitops.c:1556-1694 | the least position in the normalised range with the bit, or -1; the first position past the string only for a clear bit without an explicit end |
| BitRanges.RangesAgree | redis-stable/src/bitops.c:1598-1612 | BITPOS and BITCOUNT normalise every pair of positions to the same range or both to an empty one, unless both are negative, in the wrong order and clipped to the first unit |
| BitRanges.RangeMembers | redis-stable/src/bitops.c:1490-1510 | which bits a pair of positions means, for both commands, in bits and in bytes |
| BitRanges.OpenRanges | redis-stable/src/bitops.c:1598-1612 | and without an end or without a range |
| BitRanges.CountIsSize | redis-stable/src/bitops.c:1458-1553 | a count is the size of the set of positions with a set bit |
| BitRanges.AnswersAgree | redis-stable/src/bitops.c:1556-1694 | for every string and range, BITPOS finds a set bit iff BITCOUNT counts one, unless the positions are crossed that way and the first byte or bit has a set bit |
| BitRanges.AskBoth | redis-stable/src/bitops.c:1458-1694 | the same of the two commands as methods, for every address and both counting paths |
| BitRanges.CrossedAnswers | redis-stable/src/bitops.c:1485-1500 | positions -5 and -6 of a one-byte string: the bit found at 0 is not counted |
| BitfieldOverflow.IncrUnsigned | redis-stable/src/bitops.c:577-612 | on a stored value the check fires iff the sum does not fit, and the limit is the sum reduced modulo the width, or the exceeded bound |
| BitfieldOverflow.IncrSigned | redis-stable/src/bitops.c:614-667 | the same for every signed width up to 64 |
| BitfieldOverflow.SetSigned | redis-stable/src/bitops.c:614-667 | for SET the check fires iff the value does not fit; the stored value is right iff wrapping, or the distance to the maximum stays below 2^63 |
| BitfieldOverflow.SetUnsigned | redis-stable/src/bitops.c:577-612 | for SET of an unsigned field the check fires iff the value does not fit; saturation is right iff the operand is not negative |
| BitfieldOverflow.SetSignedWrongBound | redis-stable/src/bitops.c:622-640 | a concrete saturating SET of i8 that stores 127 for the lowest 64-bit value |
| Bitfield.SetUnsignedBitfield | redis-stable/src/bitops.c:498-511 | the field holds the lowest bits of the value and no other bit of the string changes |
| Bitfield.GetUnsignedBitfield | redis-stable/src/bitops.c:518-530 | the number written by the bits of the field |
| Bitfield.GetSignedBitfield | redis-stable/src/bitops.c:532-552 | the two's complement value of the field, for every width up to 64 |
| Bitfield.GetBuffered | redis-stable/src/bitops.c:1909-1942 | reading through the 9-byte buffer equals reading the zero-padded string |
| Bitfield.ReadBack | redis-stable/src/bitops.c:498-552 | a value that fits is read back after it was stored, signed or unsigned |
| Bitfield.NewValueExact | redis-stable/src/bitops.c:1831-1907 | SET and INCRBY fail iff FAIL was chosen and the wanted value does not fit; what is stored always fits and is the wanted value, wrapped or saturated, except exactly for the SET operands above |
| Bitfield.Execute | redis-stable/src/bitops.c:1828-1942 | one operation on the byte array does what the specification says, reply included |
| Bitfield.DoesExactly | redis-stable/src/bitops.c:1828-1942 | an operation changes no bit outside its field and not the length; the value read back is the one stored; GET and SET reply the former value, INCRBY the new one; it fails iff FAIL was chosen and the value does not fit, and then changes nothing |
| Bitfield.RunFrame | redis-stable/src/bitops.c:1828-1943 | over a list of operations the length stays and a bit no write touches stays |
| Bitfield.HighestWrite | redis-stable/src/bitops.c:1777-1780 | the farthest bit any write reaches |
| Bitfield.BitfieldCommand | redis-stable/src/bitops.c:1721-1957 | the operations run in order on the string grown with zeros to hold every write, and only as far; a reading command creates and changes nothing; BITFIELD_RO rejects exactly the writes |
| BlockedIndex.AddKeeps | redis-stable/src/blocked.c:399-431 | adding a key to a client keeps both indexes inverse, lists free of repetition and the on-nokey counts exact |
| BlockedIndex.RemoveKeeps | redis-stable/src/blocked.c:536-569 | removing one keeps them, deletes empty lists and zero counts, and the asserted entry exists |
| BlockedIndex.NokeyOfIdle | redis-stable/src/blocked.c:432-432 | changing what a client asked for matters to no count while it waits for nothing |
| BlockedServers.CountBlock | redis-stable/src/blocked.c:74-87 | blocking keeps each counter equal to the number of clients blocked by its type |
| BlockedServers.CountUnblock | redis-stable/src/blocked.c:184-215 | unblocking does too |
| BlockedServers.NobodyInterested | redis-stable/src/blocked.c:479-491 | the quick return on zero counters skips no client that could be served |
| BlockedServers.Server.BlockClient | redis-stable/src/blocked.c:74-87 | the client gets its type and the counters go up |
| BlockedServers.Server.BlockForKeys | redis-stable/src/blocked.c:388-439 | exactly the given keys gain the client, once, at the end of their lists; all invariants are kept |
| BlockedServers.Server.ReleaseBlockedEntry | redis-stable/src/blocked.c:536-569 | the list, its key and the on-nokey count after releasing one entry |
| BlockedServers.Server.UnblockClientWaitingData | redis-stable/src/blocked.c:443-457 | the client leaves all lists, the others keep their order |
| BlockedServers.Server.UnblockClient | redis-stable/src/blocked.c:184-215 | the client leaves all lists and counters and is queued at most once; every other client keeps keys and place |
| BlockedServers.Server.QueueClientForReprocessing | redis-stable/src/blocked.c:173-180 | queued once however often it is asked for |
| BlockedServers.Server.SignalKeyAsReady | redis-stable/src/blocked.c:476-523 | a key is queued at most once, only with a list, and always when a waiting client could be served |
| BlockedServers.Server.StartHandling | redis-stable/src/blocked.c:337-342 | handling is not re-entered |
| BlockedServers.Server.TakeRound | redis-stable/src/blocked.c:351-359 | the queued keys are set aside and a new list started; a key is marked ready iff it is queued once in either |
| BlockedServers.Server.TakeKey | redis-stable/src/blocked.c:361-374 | the key at work leaves the table first, so it can be signalled again |
| BlockedServers.Server.FinishHandling | redis-stable/src/blocked.c:375-378 | when both lists are empty no key is marked ready |
| BlockedServers.Server.LeaveForKey | redis-stable/src/blocked.c:666-682 | the client leaves the list of the key and all its other lists; the others keep keys and place |
| BlockedServers.Server.UnblockClientOnKey | redis-stable/src/blocked.c:666-707 | then its command runs again, as any sequence of blocking, unblocking and signalling; a client not blocked again is queued; all invariants are kept |
| BlockedServers.Server.PerformAll | redis-stable/src/blocked.c:686-698 | any sequence of such operations keeps the invariants |
| BlockedServers.Server.VisitOne | redis-stable/src/blocked.c:597-616 | the client visited is served iff it waits for the type the key has at its own turn, or asked for any change |
| BlockedServers.ServesExact | redis-stable/src/blocked.c:597-616 | clients are served by an object of their own kind or, if they asked, by any change; modules are called for any object |
| BlockedServers.InterestedExact | redis-stable/src/blocked.c:476-500 | a write of such an object is never missed by the signal |
| BlockedServers.FollowerExact | redis-stable/src/blocked.c:594-596 | the next client of the list is the one right after the last |
| BlockedServers.PlainRerun | redis-stable/src/blocked.c:666-707 | a command that blocks nobody when it runs again leaves every other client where it was |
| BlockedServers.BlockingRerun | redis-stable/src/blocked.c:666-707 | one that blocks its client again puts it at the end of the lists of its keys |
| BlockedServers.Server.HandleClientsBlockedOnKey | redis-stable/src/blocked.c:582-618 | runs down the list as it changes: every client visited is on the list at that moment, each is the one after its predecessor, no more are visited than were there at the start, and each is decided by a fresh lookup |
| EvPort.ExactlyOnce | redis-stable/src/ae_evport.c:48-64 | under the invariant a registered descriptor has exactly one representation and any other has none |
| EvPort.AddPending | redis-stable/src/ae_evport.c:154-180 | adding to a pending descriptor keeps the invariant with the new registry |
| EvPort.AddAssociated | redis-stable/src/ae_evport.c:154-182 | adding to an associated or new one keeps it iff the descriptor then has an event |
| EvPort.DelPending | redis-stable/src/ae_evport.c:185-209 | so does deleting from a pending one |
| EvPort.DelAssociated | redis-stable/src/ae_evport.c:211-245 | so does deleting from an associated one, and the association to dissociate exists |
| EvPort.Reassociate | redis-stable/src/ae_evport.c:259-272 | so does restoring an association |
| EvPort.TakeFired | redis-stable/src/ae_evport.c:298-316 | so does taking a fired descriptor into a slot |
| EventLoops.EventLoop.LookupPending | redis-stable/src/ae_evport.c:111-120 | finds a slot with the descriptor, or there is none |
| EventLoops.EventLoop.ApiAddEvent | redis-stable/src/ae_evport.c:154-183 | fails only when the kernel refuses and the descriptor is not pending, and then changes nothing; otherwise the invariant holds with the new mask iff that is not empty |
| EventLoops.EventLoop.ApiDelEvent | redis-stable/src/ae_evport.c:185-245 | the invariant holds with the events removed from the registry |
| EventLoops.EventLoop.ReassociatePending | redis-stable/src/ae_evport.c:254-274 | every pending descriptor is associated again with its mask |
| EventLoops.EventLoop.ApiPoll | redis-stable/src/ae_evport.c:247-318 | reports each event with POLLIN as readable and POLLOUT as writable, makes exactly their descriptors pending with the registry masks, and leaves the registry alone |
| EventLoops.EventLoop.CreateFileEvent | redis-stable/src/ae.c:145-179 | on success exactly the mask of the descriptor grows, on failure nothing changes; the loop stays valid, maxfd included, unless an empty mask is given for a descriptor without events |
| EventLoops.EventLoop.DeleteFileEvent | redis-stable/src/ae.c:181-201 | exactly the given events go, the barrier with the writable one; maxfd is found again |
| EventLoops.EventLoop.ResizeSetSize | redis-stable/src/ae.c:107-122 | succeeds iff no registered descriptor is cut off, and keeps all masks |
| EventLoops.EventLoop.Grow | redis-stable/src/ae.c:153-166 | the arrays double, or grow to the descriptor, up to the set size, with unregistered entries |
| Kqueue.PairsAreSeparate | redis-stable/src/ae_kqueue.c:46-60 | changing the pair of one descriptor changes no other pair of the packed table |
| Kqueue.UnionExact | redis-stable/src/ae_kqueue.c:139-157 | the union of a descriptor holds exactly the filters that occur |
| Kqueue.MergedSound | redis-stable/src/ae_kqueue.c:159-173 | each report is for an occurring descriptor with its non-empty union |
| Kqueue.MergedComplete | redis-stable/src/ae_kqueue.c:159-173 | every descriptor with a filter is reported |
| Kqueue.MergedOrder | redis-stable/src/ae_kqueue.c:159-173 | no descriptor is reported twice, and reports follow first occurrence |
| Kqueue.MergedCount | redis-stable/src/ae_kqueue.c:159-173 | there are at most as many reports as descriptors |
| Kqueue.CollectMasks | redis-stable/src/ae_kqueue.c:139-157 | the first pass leaves in the table the union of each descriptor |
| Kqueue.PollMerge | redis-stable/src/ae_kqueue.c:139-173 | the second pass writes exactly the merged reports, for which one entry per descriptor is room enough, and leaves the table all zero |
| Bio.NextKeeps | redis-stable/src/bio.c:181-368 | every critical section keeps the invariant of queues, counters, responses and wake-ups |
| Bio.Protocol | redis-stable/src/bio.c:181-444 | in every interleaving each worker runs its jobs in order of submission, each counter is the number of jobs of its type queued or running, responses are neither lost nor repeated nor reordered, and a waiting response always has a wake-up under way |
| Bio.DeliveredAfterEarlier | redis-stable/src/bio.c:341-357 | a response is delivered only after everything submitted earlier to its worker has run |
| Bio.DeliveredOnce | redis-stable/src/bio.c:416-445 | no response is delivered twice |
| BioOrder.ResponseAfterJobs | redis-stable/src/bio.c:59-67 | in every interleaving, when the response to a CompLazyFree, CompCloseFile or CompAofFsync request is delivered, every LazyFree, CloseFile, or AofFsync and CloseAof job submitted before the request has run |
| BioOrder.LogJobsInOrder | redis-stable/src/bio.c:59-67 | fsyncs and closes of the append-only file run in the order of their submissions |
| BioOrder.RespondedExact | redis-stable/src/bio.c:338-357 | a job is answered iff it is one of the three requests and has run |
| BioServers.BioServer.SubmitJob | redis-stable/src/bio.c:181-189 | the job joins the queue of the worker of its type and its counter goes up |
| BioServers.BioServer.PickJob | redis-stable/src/bio.c:281-295 | the worker has its first job and has released the lock |
| BioServers.BioServer.ProcessJob | redis-stable/src/bio.c:297-353 | the job has run; a completion request has put its response in the list |
| BioServers.BioServer.AnnounceResponse | redis-stable/src/bio.c:354-356 | the pipe has one more byte, unless it was full |
| BioServers.BioServer.FinishJob | redis-stable/src/bio.c:362-367 | the job leaves the queue and its counter goes down |
| BioServers.BioServer.PendingJobsOfType | redis-stable/src/bio.c:372-380 | the number of jobs of the type queued or running |
| BioServers.BioServer.Drained | redis-stable/src/bio.c:383-391 | the loop ends iff the queue is empty, and then everything ever submitted to the worker has run, in order |
| BioServers.BioServer.ReadPipe | redis-stable/src/bio.c:424-424 | reads of full chunks repeat, and a short one empties the pipe |
| BioServers.BioServer.TakeList | redis-stable/src/bio.c:427-434 | the list is taken whole and a new one started |
| BioServers.BioServer.CallBack | redis-stable/src/bio.c:437-443 | responses are called back one by one, in order |
| Bio.DrainMeansRan | redis-stable/src/bio.c:372-391 | when the queue of a worker is empty, everything submitted to it has run in order and its counters are 0 |
| BioDrain.DrainExact | redis-stable/src/bio.c:181-391 | over every interleaving of submitting, working, finishing, draining and spurious wake-ups, a queued job never finds its worker asleep and nobody waits for an empty queue, iff at most one thread drains |
| BioDrain.WaitingIsFed | redis-stable/src/bio.c:383-391 | while a thread waits for the queue to empty the worker can go on, and each of its steps brings the end nearer |
| BioDrain.TwoDrainersLose | redis-stable/src/bio.c:181-391 | with two draining threads a run that ends with a queued job, the worker asleep and both threads waiting |

## Left out

- AclSelectors.AclSelector.SetSelector: only command and category operations, given without blanks, quotes and NUL bytes; key and channel patterns, passwords and selectors in parentheses are not modelled.
- AclRules.DescriptionRebuilds: for rule tokens without quotes, blanks and NUL bytes and command ids within the bitmap, which is where the rule text is split back by plain blanks.
- AclSelectors.AclSelector.ChangePerm: command ids are within the bitmap; for larger ones the code writes past the first-argument table, which has one entry per bit.
- AclSelectors.AclSelector.SetBitsForCategory: command ids are within the bitmap, for the same reason.
- AofCodec.ReadCommand: fewer than 2^31 arguments, which `ArgcWraps` shows to be exact, and argument sizes below 2^63.
- AofFeed.FeedRoundTrip: databases are numbers that the loader accepts; the range check of SELECT is not modelled.
- AofRewrite.CrashSafety: a dataset is the list of commands executed, a snapshot is that list, and one flush is atomic; the bytes below are the subject of AofFlush and AofLoad.
- AofCrash.CrashRecovers: what a stopped server leaves is a prefix of its file; reordered or damaged blocks below the file system are not modelled.
- AofRecovery.AppendAfterRecovery: for appended logs without MULTI and EXEC that start with a command; `AofResume.AppendAnything` covers all others.
- AofRecovery.OpenTransactionSwallows: the same; with MULTI or EXEC in what is appended see `AofResume.AppendAnything`.
- AofFlush.RunConserves: for append mode; `AofFlush.RunConservesIff` covers the other descriptor.
- AofLoad.TruncatedLoad: no RDB preamble, and MULTI is never nested, which the server never writes.
- RDB preambles, AOF state changes while running, and the text format of the manifest file.
- ChkTopKs.ChkTopK.Update: requires that the 64-bit total does not wrap; doubles are reals, with the decay base positive; hashes are arbitrary functions.
- ChkHeap.ReplaceExact: heap order is stated per update and not for every run, since it can break as described.
- The sorted listing, the reset and the memory accounting of the top-K sketch.
- RepVggModel.RepVGG.ConvertToInferenceModel: pooling and the linear layer are an arbitrary function after the stack; parameters are real numbers, normalisation uses the running statistics (evaluation mode), and std is any positive number per channel; the cached identity kernel is not modelled.
- Training, other network definitions and the Python services.
- Popcount.RedisPopcount: the 256-entry table and the processor's count instruction are taken to count bits; vector instruction paths of BITCOUNT and BITOP are not modelled.
- Bitfield.BitfieldCommand: works on parsed operations; parsing of types, offsets and `#` offsets, the limit on string length and the change notifications are not modelled.
- Bitpos.BitposCommand: works on parsed arguments.
- SETBIT and GETBIT, which are BITFIELD with one bit.
- BlockedServers.Server.HandleClientsBlockedOnKey: a re-executed command is any sequence of the operations on blocked clients and ready keys; if it releases the client that the list iterator would visit next, the model ends the run there, where the code goes on from a released node. What the call of a module does with its client is not modelled.
- BlockedServers.Server.UnblockClient: the lists of postponed clients and of clients waiting for replicas, and the timeout table, are not modelled. Keys are those of one database.
- EventLoops.EventLoop.CreateFileEvent: handlers and client data are not modelled.
- EventLoops.EventLoop.DeleteFileEvent: a descriptor below the set size has an allocated entry, which the code reads without a check.
- EventLoops.EventLoop.ApiPoll: associations made while polling or deleting succeed; the code ends the process otherwise.
- Time events, the epoll and select back ends, and socket handling.
- Bio.Protocol: threads are interleaved critical sections; what a job does besides a completion response is not modelled.
- BioServers.BioServer.Drained: only the test that ends the loop; the waiting is the subject of BioDrain.
