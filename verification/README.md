# kemo-agent: verified models of its protocols

A Dafny model of the parts of kemo-agent that keep state across failures, threads or several calls, with proofs of
what those parts promise. `dafny verify dfyconfig.toml` checks everything.

| Component | Modules (in reading order) |
|---|---|
| Crash-safe deployment (`deploy/core`) | `Trees`, `Transactions`, `UndoOrder`, `Installations`, `Sessions`, `Configs`, `Versions`, `Policies`, `PolicyLaws`, `Plans`, `Reinstalls`, `PlanLaws`, `Deploys` |
| Fair request pool (`provider/fairness.py`, `request_pool.py`, `factory.py`) | `Fairness`, `TurnLaws`, `Pools`, `PoolRuns`, `Factories` |
| Updater synchronisation and rollback (`update/_utils.py`, `backup.py`, `transaction.py`) | `SourceSync`, `SyncLaws`, `Rollbacks`, `RollbackLaws`, `PatternLaws` |
| Streaming chat and tool arguments (`provider/openai_chat.py`, `tool_arguments.py`) | `ChatStreams`, `StreamLaws`, `OneShots`, `ExchangeLaws`, `Arguments` |
| Calendar and task lifecycle (`cron`) | `Calendars`, `CalendarLaws`, `NextOccurrences`, `OccurrenceLaws`, `Lifecycles` |
| Message admission (`message`) | `Routers`, `MessageStates` |

`Options` and `Collections` hold what all of them share.

Code that changes state in place is a class whose methods are proved against a specification function or relation
(`Installation`, `SpaceTurns`, `FairRequestPool`, `ProviderFactory`, `Directory`, `OpenAIChatTransport`,
`ArgumentValidator`, `CronTaskStore`, `MessageRouter`, `ProcessedMessageStore`); the laws are then lemmas about those
functions and about runs of the resulting state machines.

How the outside world appears:

- A disk is a tree of files (content and mode) and directories. `atomic`, `unlink`, `mkdir`, `rmdir` and removing a
  transaction directory are one step each. `Installation.power` says after how many steps the machine goes down and
  `Installation.errors` after how many steps an operating-system error or another exception surfaces, each time
  anew; a proof about every `power` and `errors` is a proof about crashes and exceptions between any two steps, inside
  rollbacks and recoveries too.
- Deployment bookkeeping under `.kemo-deploy` is a separate map of transactions; `Policies.OwnFilesAreProtected`
  shows that no release file can ever be named there. Transaction directories sort by creation time, so a
  transaction is identified by a number.
- Digests, JSON parsing and printing, version parsing, the JSON reader of the argument parser and the identifiers
  made up for nameless tool calls are function parameters. Only `Plans.RoundTrips` (printing a document and reading
  it back gives that document) is assumed of them, where it is needed.
- Threads are interleaved steps. A step is what the code does while it holds one lock.

## Where the code falls short of the obvious claim

Each of these is kept as the code has it, with the exact condition or a concrete case proved.

- **Rollback after the flip.** An exception that surfaces after the journal durably says `committed`, but still
  inside the `try` of `commit`, starts a rollback. If that rollback is cut short, recovery skips the journal and the
  tree stays mixed: `Sessions.RollbackIsSafeIffNotFlipped`, `Sessions.TornWitness`. It can happen to exactly those
  transactions that change more than one file or directory: `Sessions.NeverTearsIffOneSpot`.
- **Nested targets.** A list of changes can be rolled back from every tree an interruption can leave exactly when no
  write that is carried out makes a directory of another changed path, or leaves a file above a changed path that is
  undone before that file: `UndoOrder.RollbackCompletesIff`. Plans never nest: `Reinstalls.PlanIsSafe`.
- **Reinstalling.** Planning the same release again is the empty plan exactly when every merged file can be merged
  again; it is refused when a configuration file that was installed fresh is not a mapping, or when the idle
  default is the float `5400.0` and was migrated to the integer `5400`: `Reinstalls.ReplanIsFixpoint`.
- **The scope served last** has no bypass bound until another scope has been granted a slot: when it alone waits on an
  idle pool, any number of newcomers that arrive before the next grant is served first, `PoolRuns.ServedLastIsOvertaken`.
  From that grant on it has the usual bound, in every pool: `PoolRuns.BoundedAfterOneGrant`.
- **`FairRequestPool.acquire`** registers outside the factory lock. That is safe exactly when its pool is current and
  no thread has already seen that pool idle in order to replace it: `Factories.UnlockedRegistrationIsSafeIff`; the
  race is `Factories.UnlockedRegistrationRaces`, and it can be reached (`Factories.ReplacementIsReached`).
- **The delete walk** does not skip what lies two or more levels beneath a directory that is excluded by a file
  pattern, although the copy walk does: `SyncLaws.ExcludedSurviveIff`, `SyncLaws.DeepFileIsLost`.
- **Rollback of the updater** applies the exclusion patterns a second time relative to each managed directory.
  Patterns of several components (`message/out/`, `global_expand/kemo_app/config.json`) no longer match there, so
  runtime-owned files that the documentation of `restore_backup` promises to preserve are deleted, even when the
  update changed nothing: `RollbackLaws.RuntimeFileSurvivesIff`, `RollbackLaws.OutgoingMailIsLost`.
- **A directory written in place of a file** is not noticed by that rollback: it reports success and the file stays
  missing (`Rollbacks.DirectoryInPlaceOfFile`). It fails exactly when a file stands at a directory of the snapshot, or
  a directory at one of its files holds another directory of the same name: `Rollbacks.RestoreBackup`.
- **Blank reasoning** (whitespace only). Outside DeepSeek, text fields of reasoning are dropped when blank, piece by
  piece in a stream but only as a whole in a one-shot answer, so "a", " ", "b" becomes "ab" instead of "a b":
  `OneShots.BlankPieceIsLost`. Where nothing is dropped, blank reasoning is replaced by the placeholder, and counts as
  missing, on the one-shot path only. The exact conditions are `OneShots.ReasoningAgrees`, where the same field is
  read throughout, and `OneShots.FlagAgrees`, for any mixture of fields.
- **Reasoning fields that take turns** are all streamed, but a one-shot answer reads the first of them that is not
  blank: "a" in one field and then "b" in another become "ab" and "a", `OneShots.TurnsAreStreamed`.
- **The scanner** and the validator disagree on exactly the accepted values whose containers nest 65 deep:
  `Arguments.ScannerIsStricterIff`, `Arguments.ScannerRefusesAcceptedObject`.
- **A number that Python refuses to convert** (too many digits) makes the JSON reader raise a plain `ValueError`, and a
  text with a lone surrogate cannot be encoded to measure its size. Exactly these two escape from
  `parse_tool_arguments`: the `Escapes` clause of `Arguments.ParseToolArguments`.
- **`_finish_task`** checks the attempt but not the status, so a repeated success of the last attempt counts again
  exactly if runs are left: `Lifecycles.SecondSuccessCountsIff`. A `once` task succeeds at most once, whatever its
  workers report, exactly if its maximum is 1: `Lifecycles.OnceSucceedsOnceIff`. `_revert_claim` ignores attempts
  altogether, so that a late revert re-enables the task under a later attempt: `Lifecycles.RevertIgnoresAttempts`.
- **An executor that raises after queueing** releases the ticket of a message that still runs. Each such message leaves
  the active counter one too high for good once it has run: `Routers.BooksAreKept`, `Routers.CountersAreExactIff`,
  `Routers.LateForGood`.

## Model

| member | source | states |
|---|---|---|
| Transactions.ConfinedRun | deploy/core/sync.py:142-219 | Stop `commit` or a rollback after any number of steps: the tree still differs from the old one only in the changed files and in new directories above them |
| Transactions.UndoRestoresFiles | deploy/core/sync.py:143-154 | Undoing the entries from any intermediate tree gives back content and mode of every recorded file and removes the added ones; it is refused exactly where an added file has become a directory or a file stands above a recorded path when that path is looked up |
| Transactions.RmdirsRestoreDirs | deploy/core/sync.py:155-158 | Once the files are back, the recorded new directories, taken deepest first, are each empty at their turn, so exactly the old tree remains |
| Transactions.RestoreIsExact | deploy/core/sync.py:142-160 | A rollback that completes yields exactly the tree before the transaction, wherever it started, and it completes exactly from the trees just described |
| Transactions.RecoveriesAreExact | deploy/core/sync.py:142-177 | From such a tree any number of interrupted rollbacks followed by a complete one gives back the old tree |
| Transactions.ApplyReachesOutcome | deploy/core/sync.py:204-209 | Without nesting every change is accepted and the files end up as the list of changes says |
| UndoOrder.CrashAtomicity | deploy/core/sync.py:142-219 | Crash at any step while applying an undoable list, then at any step of any number of recoveries: the next complete recovery restores the old tree exactly |
| UndoOrder.RollbackCompletesIff | deploy/core/sync.py:142-219 | For a given list, a rollback completes from the tree after every number of steps if and only if no write that is carried out buries a changed path or obstructs one that is undone earlier |
| UndoOrder.NoNestingIsUndoable | deploy/core/sync.py:142-219 | Lists without nested paths are undoable |
| Installations.Installation.Restore | deploy/core/sync.py:142-160 | Done means the old tree is back and the journal says rolled back; stopped by a refusal, an error or a power failure means the journal is untouched and recovery can start over; a refusal occurs only from a tree that cannot be undone |
| Installations.Installation.Recover | deploy/core/sync.py:163-177 | From any disk that stands for a tree, a finished recovery leaves exactly that tree and no unfinished journal, counts what it undid, marks exactly the unfinished journals as rolled back and changes nothing else about any transaction |
| Installations.Installation.Prepare | deploy/core/sync.py:186-200 | Backups and entries describe the tree faithfully before any target is touched, or a target is unacceptable |
| Installations.Installation.Open | deploy/core/sync.py:181-202 | Once the journal is durable it is the only unfinished one and describes the untouched tree; before that nothing has changed |
| Installations.Installation.Write | deploy/core/sync.py:203-213 | The try block stops after some number of steps, and the journal says committed exactly if all of them were taken |
| Installations.Installation.RollBack | deploy/core/sync.py:214-219 | The rollback inside commit restores the old tree, and it is refused only for a list that is not undoable |
| Installations.Installation.Attempt | deploy/core/sync.py:203-219 | The whole try statement: all changes and a committed journal, the old tree again, or a disk that stands for the old tree; without error or exception it succeeds whenever every change goes through |
| Installations.Installation.Commit | deploy/core/sync.py:180-224 | Success installs the whole list; rejection, an early error and a completed rollback leave the old tree; anything else leaves a disk that stands for the old or for the new tree, unless the exception came after the flip. The journal tells how it ended, other transactions stay as they are, and only a success removes some: undisturbed, exactly the committed ones with two newer. Undisturbed, it ends in success or in a refusal by the tree |
| Installations.Installation.Prune | deploy/core/sync.py:227-243 | Only committed transactions with two newer committed ones are dropped, and if each could be removed no others of that kind remain |
| Sessions.RunCommand | deploy/core/cli.py:139-160 | One command that recovers before it commits has its full effect or none, in accordance with what it reports; only a torn rollback after the flip can leave its own targets mixed |
| Sessions.RunCommands | deploy/core/cli.py:139-160 | Over every history of commands, with crashes and exceptions anywhere, each command moves the tree the disk stands for in that way, and at most one journal is unfinished |
| Sessions.RollbackIsSafeIffNotFlipped | deploy/core/sync.py:203-219 | The tree is whole again after any interrupted rollback if and only if the journal flip was not durable when the rollback began |
| Sessions.NeverTearsIffOneSpot | deploy/core/sync.py:203-219 | For a recorded, undoable transaction: every interruption of the rollback after a durable flip leaves the old or the new tree if and only if the transaction changes at most one file or directory |
| Sessions.TornWitness | deploy/core/sync.py:212-219 | Two files, a flip, an interrupted rollback: recovery keeps a tree that is neither old nor new |
| Configs.MergeDefaults | deploy/core/config.py:26-34 | The loop over a copy of the local mapping computes the recursive merge, or the type error |
| Configs.MergeRemoteDefaults | update/core.py:218-229 | The loop over a copy of the remote mapping computes the updater's merge |
| Configs.MergeByPath | deploy/core/config.py:26-34 | Path by path: every local leaf is kept and exactly the default paths that are missing locally appear |
| Configs.MergeIdempotent | deploy/core/config.py:26-34 | Merging the defaults into the result again changes nothing |
| Configs.MergesAgree | update/core.py:218-229 | Whenever the deployment merge succeeds, the updater's merge, folded the other way round, is the same mapping |
| Configs.RemoteMergeByPath | update/core.py:218-229 | Path by path, and whatever clashes: the local value wins, and exactly the missing paths appear |
| Configs.MergeFailsIffClash | deploy/core/config.py:28-32 | The merge raises if and only if some path present on both sides changed its type |
| Versions.KeyOrder | deploy/core/common.py:34-39 | Version keys are totally ordered, as section 11 of Semantic Versioning 2.0.0 requires |
| Versions.LeqIsPrecedence | deploy/core/common.py:34-39 | The comparison of keys is precedence as section 11 of Semantic Versioning 2.0.0 words it: the first differing number, a prerelease before its release, identifier by identifier |
| Versions.NoSelfMigration | deploy/core/sync.py:32-64 | The migration guard never holds between a version and itself |
| Policies.OwnFilesAreProtected | deploy/core/policy.py:7-49 | The record, the lock, the maintenance marker, transactions, backups, environments, repository and runtime trees are protected whatever is configured, and seed files are never managed |
| PolicyLaws.ProtectedIff | deploy/core/policy.py:7-49 | Exactly the reserved trees and files, what a configuration adds, generated directories, private names and local module data are protected |
| PolicyLaws.ShippedRules | deploy/core/policy.py:26-62 | Which names are default data, locally owned and merged |
| PolicyLaws.RequiredFilesAreFree | deploy/core/sync.py:72-74 | Without configured entries no file that a release must bring is protected |
| Plans.PlanRelease | deploy/core/sync.py:75-129 | The pass over the release produces exactly the writes and the managed map of the file-by-file decision, or refuses when one file is refused |
| Plans.PlanObsolete | deploy/core/sync.py:130-138 | The pass over the old record deletes exactly the obsolete files |
| Plans.Plan | deploy/core/sync.py:67-139 | Both passes together compute the specified plan, including every refusal |
| Reinstalls.PlanIsSafe | deploy/core/sync.py:67-139 | The changes of a plan are acceptable to `commit`, never nest, complete, and could always be rolled back |
| Reinstalls.InstalledFile | deploy/core/sync.py:67-139 | After plan and commit each path holds what its decision says: kept, written, merged, deleted or left alone |
| PlanLaws.PlainFile | deploy/core/sync.py:88-129 | A file managed as shipped is added if absent; if recorded it ends up with the release's content and mode, unless it had that content, and then nobody had changed it or overwriting was asked for; if not recorded it stays |
| PlanLaws.SeedFile | deploy/core/sync.py:76-85 | Default data is added where it is missing, never touched again and never recorded |
| PlanLaws.OtherFile | deploy/core/sync.py:130-139 | The record is written with mode 0600, unchanged obsolete files go, and all other files stay |
| PlanLaws.MergedFile | deploy/core/sync.py:92-119 | A merged file keeps every local value, gains exactly the missing ones, and its idle default is migrated in exactly one case; it is untouched if that changes nothing |
| PlanLaws.ManagedNames | deploy/core/sync.py:75-129 | Exactly which names the new record holds |
| PlanLaws.RefusedIff | deploy/core/sync.py:72-139 | A plan is refused exactly if a required file is protected, kinds collide, a managed file was modified and overwriting was not asked for, a foreign file differs, two documents cannot be merged, or a dropped file lies beneath a file |
| Reinstalls.FirstInstall | deploy/core/sync.py:75-129 | Over nothing but protected runtime files, a first install is refused exactly when a file and a directory collide, and otherwise puts down every file that is a seed or not protected, exactly as shipped |
| Reinstalls.RecordDescribesDisk | deploy/core/sync.py:127-139 | Every name in the new record has exactly the recorded digest on disk |
| Reinstalls.ReplanIsFixpoint | deploy/core/sync.py:67-139 | Planning the same release again is the empty plan with the same map exactly when every merged file can be merged again, and is refused otherwise |
| Reinstalls.MigratedMergesAgain | deploy/core/sync.py:32-64 | A migrated configuration merges to itself when the default is an integer and fails by type when it is a float |
| Reinstalls.OwnershipFrame | deploy/core/sync.py:75-139 | Protected paths and unrecorded local module files are untouched, seeds are only added, deletions are exactly the obsolete unmodified files, and a rewrite without the overwrite flag needs the recorded digest |
| Reinstalls.MergedFilesKeepLocalValues | deploy/core/sync.py:92-119 | A merged file on disk keeps every local leaf, apart from the one legacy idle default the migration replaces |
| Deploys.RunOne | deploy/core/cli.py:139-160 | Recover, validate, plan, commit: a command finishes, stops as up to date or declines only when the tree it found calls for that: it goes on only if installed and wanted version parse and the wanted one is not strictly older, or downgrading is allowed, and declines only if it may not go on or the release cannot be planned or prepared. Finished means the planned tree and a truthful record, anything short of interruption leaves the tree alone, and an interrupted command is one recovery away from either tree. Without errors it does what is called for unless the power goes or an earlier transaction cannot be undone |
| Deploys.AdmittedIff | deploy/core/cli.py:146-171 | When a command may go on, and when nothing is to be done, in terms of version precedence, flags and the tree |
| Deploys.SecondRunChangesOnlyTheRecord | deploy/core/cli.py:147-158 | After a finished command another one for the same release, whatever the flags of either, with a record of its own, changes no file but the record, given that every merged file can be merged again |
| Fairness.SpaceTurns.Choose | provider/fairness.py:17-30 | The in-place pruning, insertion and search compute the refreshed turn list and the specified choice |
| Fairness.SpaceTurns.Served | provider/fairness.py:32-36 | The served scope moves to the end and becomes `last` |
| TurnLaws.RefreshLaws | provider/fairness.py:17-25 | The list stays free of repetitions and ends with `last`; every waiting scope gets a turn; no waiting scope other than `last` moves back |
| TurnLaws.RefreshIdempotent | provider/fairness.py:17-30 | Asking again changes neither the list nor the choice |
| TurnLaws.ChoiceLaws | provider/fairness.py:26-30 | Somebody is chosen whenever somebody waits: a least occupied scope, and the earliest of those in the list |
| TurnLaws.ServeLaws | provider/fairness.py:32-36 | Serving keeps the list well formed, puts the served scope last and moves everybody behind the served scope one place forward |
| Pools.FairRequestPool.Register | provider/request_pool.py:40-48 | A ticket with a fresh identity joins the end of the pending list and the turn list is refreshed |
| Pools.FairRequestPool.TryGrant | provider/request_pool.py:50-80 | The ticket is granted exactly when a slot is free and it is the earliest ticket of the chosen scope |
| Pools.FairRequestPool.Release | provider/request_pool.py:88-95 | A held slot is returned; releasing a slot that is not held is an error that changes nothing |
| PoolRuns.PoolIsSafe | provider/request_pool.py:40-95 | In every run: the limit holds, slots are grants minus releases, each ticket is waiting, granted or abandoned, and a scope's tickets are granted in order |
| PoolRuns.EveryRunIsSafe | provider/request_pool.py:23-95 | The same for every run of a new pool, and the slots in use never exceed its limit |
| PoolRuns.WorkConserving | provider/request_pool.py:50-80 | With a free slot and a waiter exactly one pending ticket passes, and asking again does not change which |
| PoolRuns.StepAdvances | provider/fairness.py:17-36 | No step moves a waiting scope back, and each grant to another scope moves it forward |
| PoolRuns.BoundedBypass | provider/request_pool.py:40-80 | While a scope waits without a slot and is not `last`, grants to others number at most its current index, whatever arrives, leaves or is released |
| PoolRuns.ServedLastIsOvertaken | provider/fairness.py:17-36 | On an idle pool in which only the scope served last waits, for any list of distinct newcomers there is a run that serves all of them before it |
| PoolRuns.BoundedAfterOneGrant | provider/fairness.py:17-36 | From the first grant to another scope on, that scope too is passed over at most as often as its index says |
| Factories.ProviderFactory.Get | provider/factory.py:26-43 | The pool is replaced exactly when there is none or the limit changed while it is idle; a limit below one is an error; and the lookup is the sequence of moves of the state machine that ends with the current pool |
| Factories.ReconfigurationIsSafe | provider/factory.py:26-43 | Every interleaving of lookups, replacements, registrations, grants, abandonments and releases keeps all pools but the current one idle |
| Factories.AllRequestsShareOnePool | provider/factory.py:89-114 | From the empty factory on, every ticket and slot belongs to the current pool and the requests in flight never exceed its limit |
| Factories.UnlockedRegistrationIsSafeIff | provider/request_pool.py:40-48 | Registering without the factory lock keeps all of this if and only if the pool is still the current one and nobody has seen it idle in order to replace it |
| Factories.UnlockedRegistrationRaces | provider/request_pool.py:82-86 | If somebody has, the replacement leaves the registration on a busy pool that is no longer current |
| Factories.ReplacementIsReached | provider/factory.py:26-43 | Such a state is reached by two requests with different limits |
| SourceSync.Directory.WalkSync | update/_utils.py:374-409 | The top-down walk, in any order of listing, copies exactly the files and makes exactly the directories that no pattern excludes, when kinds do not clash; it succeeds exactly if no file is in the way of a directory and no file is blocked twice, and in any case only adds |
| SourceSync.Directory.WalkDelete | update/_utils.py:412-447 | The bottom-up walk, in any order of listing, removes exactly the doomed files and the directories with nothing left beneath them |
| SourceSync.Directory.SyncDirectory | update/_utils.py:450-479 | Fails without effect when the source is no directory; otherwise the two walks in sequence, with the same exact condition for success |
| SyncLaws.SyncedFiles | update/_utils.py:374-479 | What every path holds after a synchronisation with deletion, with no assumption about names |
| SyncLaws.SyncedDirs | update/_utils.py:374-479 | Exactly which directories exist afterwards: the visited ones, and those of the target that the source has or in which something is spared |
| PatternLaws.SyncByPatterns | update/_utils.py:333-371 | What a synchronisation does to each file by the patterns that name it: a path, a name, a directory anywhere or a directory path leaves the file alone, and what none names is copied or deleted |
| PatternLaws.SyncDirsByPatterns | update/_utils.py:374-448 | Which directories a synchronisation with deletion makes and keeps, by the patterns that name them or something in them |
| SyncLaws.SyncMirrors | update/_utils.py:374-479 | With file patterns that name no directory, source and target agree on every path that is not excluded and nothing else changes |
| SyncLaws.ExcludedSurviveIff | update/_utils.py:412-438 | All excluded files survive if and only if each is spared by the delete walk's own narrower test or present in the source |
| SyncLaws.DeepFileIsLost | update/_utils.py:425-438 | A file two levels beneath a directory named like a file pattern is excluded from copying and yet deleted |
| SyncLaws.SyncIdempotent | update/_utils.py:450-479 | Synchronising twice is synchronising once |
| Rollbacks.MakeBackup | update/backup.py:19-38 | A backup never fails on kinds and is the snapshot of the tree |
| Rollbacks.SnapshotFiles | update/backup.py:19-38 | A snapshot holds exactly the files and directories that are not excluded, with content and mode |
| PatternLaws.SnapshotByPatterns | update/backup.py:19-38 | A backup lacks exactly what a pattern names, itself or on the way to it |
| PatternLaws.ListedFilesStayOut | update/constants.py:27-90 | Files listed by their path, or by their name, are in no backup |
| Rollbacks.RestoreBackup | update/backup.py:54-84 | The three passes compute the specified restoration when kinds do not clash. It succeeds exactly if no file stands at a directory of the snapshot and none of its files is blocked twice, and then all files are back if and only if no directory stood at one of them |
| Rollbacks.MirrorManaged | update/backup.py:73-84 | The loop over the managed directories computes their mirroring one after the other, when the snapshot is already in place |
| Rollbacks.UpdateTransaction | update/transaction.py:28-78 | A failed update ends in the restoration of the snapshot taken before it, with the exact condition for its success and for all files being back; a successful one keeps what was written |
| Rollbacks.DirectoryInPlaceOfFile | update/backup.py:62-67 | With a directory in the place of a file, the restoration reports success and the file is missing |
| RollbackLaws.MirroredFiles | update/backup.py:73-84 | Mirroring all managed directories removes exactly the swept files and alters no other |
| RollbackLaws.MirroredDirs | update/backup.py:73-84 | Which directories the mirroring of all managed directories removes |
| RollbackLaws.RollbackRestores | update/backup.py:54-84 | After arbitrary writes every file that is not excluded has its old content, and of all others exactly the additions among managed files and beneath managed directories are gone |
| PatternLaws.RollbackByPatterns | update/backup.py:54-84 | What a rollback does to each file, by the patterns that name it from the root and from its managed directory |
| PatternLaws.OwnDirectoriesAreUntouched | update/constants.py:27-90 | With the shipped patterns user data, runtime, repository, environments and backups are neither backed up nor rolled back |
| RollbackLaws.RollbackRestoresDirs | update/backup.py:62-84 | Every directory of the snapshot exists again, and of all others exactly those are gone that lie beneath a managed directory and hold nothing spared |
| RollbackLaws.RuntimeFileSurvivesIff | update/backup.py:68-84 | An excluded file survives a rollback if and only if neither a managed root file nor a managed directory with a pattern that fails to match inside it reaches the file |
| RollbackLaws.PlainNamesSurvive | update/_utils.py:354-366 | A pattern of one component protects at every depth, managed directories included |
| RollbackLaws.OutgoingMailIsLost | update/constants.py:27-90 | With the shipped patterns and managed paths, a rollback over an unchanged tree deletes a file in `message/out` |
| ChatStreams.OpenAIChatTransport.ReceiveCalls | provider/openai_chat.py:666-678 | The fragments of a choice are merged into the parts in order; there is a part exactly for every non-negative index that arrives and for the position of every fragment without one |
| ChatStreams.OpenAIChatTransport.ChatStreamOnce | provider/openai_chat.py:543-786 | The generator's buffers and loops, with the reasoning of each delta chosen and filtered as it arrives, yield the specified events and ending for every sequence of lines |
| StreamLaws.TextIsPreserved | provider/openai_chat.py:647-665 | In a finished exchange every received text comes out exactly once and in order |
| StreamLaws.RetryIsSafe | provider/openai_chat.py:579-590 | An interruption is retryable exactly when nothing was received, and then nothing has been yielded |
| StreamLaws.ReasoningComesFirst | provider/openai_chat.py:697-732 | A finished exchange starts with reasoning exactly when reasoning is not reported as required and missing |
| StreamLaws.EndsWithUsageThenDone | provider/openai_chat.py:733-786 | A finished exchange ends with one usage and one done event; an unfinished one has neither, nor tool calls |
| ExchangeLaws.ReasoningIsFirstVisible | provider/chat_compat.py:68-83 | Reasoning is the first field with a visible character, or the details; for DeepSeek its one field |
| ExchangeLaws.EventsAre | provider/openai_chat.py:640-786 | The whole sequence of events in closed form: first reasoning, text held back, later reasoning; then an invented reasoning if due, the remaining text, the calls, usage and done |
| ExchangeLaws.EndingIs | provider/openai_chat.py:579-705 | How an exchange ends, by its first line that is neither blank nor a frame and by what has arrived |
| ExchangeLaws.OneShotEventsAre | provider/openai_chat.py:361-425 | The events of a one-shot answer in closed form |
| OneShots.PartsSeparate | provider/openai_chat.py:666-678 | However calls are interleaved, each part is the fold of its own fragments |
| OneShots.FoldSpells | provider/openai_chat.py:122-143 | Folding string fragments keeps the first id and name and concatenates the arguments |
| ExchangeLaws.OwnIndexOwnPart | provider/openai_chat.py:108-119 | A fragment whose index no other fragment goes to makes up its part alone, in whichever delta and position it came |
| ExchangeLaws.ArgumentsMerge | provider/openai_chat.py:122-143 | Arguments of any kind: an object that comes first is the whole, otherwise everything but objects is strung together |
| ExchangeLaws.LegacyIsCallZero | provider/openai_chat.py:680-695 | Function calls of the old kind make up call number 0, under an identifier of their own if nothing came before |
| OneShots.KeptReasoning | provider/chat_compat.py:68-83 | What the stream keeps of a reasoning field is the whole field exactly if nothing is dropped or no piece of it is blank |
| OneShots.StreamingRefinesOneShot | provider/openai_chat.py:361-425 | A properly closed stream carrying a message, in any fragmentation of text, calls and all reasoning fields and any interleaving, succeeds exactly when the one-shot answer does, with the same calls and text, and the last event agrees if and only if the stated condition holds; where the same reasoning field is read throughout (for DeepSeek always), the reasoning agrees if and only if its condition holds |
| OneShots.BlankPieceIsLost | provider/chat_compat.py:68-72 | Outside DeepSeek the pieces "a", " " and "b" stream as "ab" while the one-shot answer says "a b" |
| OneShots.NothingKeptIff | provider/chat_compat.py:68-83 | In any mixture of the fields the stream keeps some reasoning exactly when the joined fields hold some |
| OneShots.TurnsAreStreamed | provider/chat_compat.py:68-83 | Outside DeepSeek "a" in one field and then "b" in another stream as "ab" while the one-shot answer says "a" |
| Arguments.RawJsonNestingExceeds | provider/tool_arguments.py:120-143 | The three-variable loop with its early exit computes the scan of the whole text |
| Arguments.ScannerEqualsStructure | provider/tool_arguments.py:120-143 | For every JSON text, in every layout and with strings spelled as in section 7 of RFC 8259, the scanner reports excess if and only if containers nest deeper than the limit |
| Arguments.ExcessNeedsOpeners | provider/tool_arguments.py:120-143 | In any text, well formed or not, excess takes more opening brackets than the limit |
| Arguments.ArgumentValidator.Check | provider/tool_arguments.py:35-84 | The recursion with its mutable node counter computes the specified verdict |
| Arguments.ValidatorIsExact | provider/tool_arguments.py:35-84 | A value is accepted exactly if nothing in it is deeper than 64, it has at most 4096 values and all numbers are finite, and each error names a defect that is there |
| Arguments.ParseToolArguments | provider/tool_arguments.py:204-252 | A text is accepted exactly when it passes the size, scanner, syntax, object and validator checks; each kind of failure occurs exactly in its case; an exception escapes exactly for a text that has no UTF-8 form or a number that cannot be converted; and when the parser returns what the text spells only the number of nodes can still make it too complex |
| Arguments.TooDeepNeedsNesting | provider/tool_arguments.py:35-84 | A depth error needs containers nested deeper than the limit |
| Arguments.DepthCheckIsUnreachable | provider/tool_arguments.py:204-252 | The value of a text that passed the scanner never trips the validator's depth check |
| Arguments.ScannerIsStricterIff | provider/tool_arguments.py:35-143 | On a value that the validator accepts the scanner reports excess if and only if its containers nest exactly one deeper than the limit |
| Arguments.ScannerRefusesAcceptedObject | provider/tool_arguments.py:204-252 | There is an object that the validator accepts and the scanner refuses |
| Calendars.MonthDayRecurs | cron/schedule.py:82-92 | Every day of the month from 1 to 31 recurs within 62 days, leap years and centuries included |
| Calendars.WeekdayRecurs | cron/schedule.py:82-92 | Every weekday recurs within 7 days |
| CalendarLaws.CivilIsGregorian | cron/schedule.py:82-92 | Every date has the day number of the closed Gregorian formula, with a leap day every fourth year except centuries, but every fourth century |
| CalendarLaws.DayNumberOfCivil | cron/schedule.py:82-92 | Every day number is that of its date |
| CalendarLaws.YearsBegin | cron/schedule.py:82-92 | Years begin where the closed formula says |
| CalendarLaws.WeekdaysAreAnchored | cron/schedule.py:82-92 | Weekdays repeat from a Monday on, and 1 January 2024 is one |
| NextOccurrences.TaskTimes | cron/schedule.py:58-74 | Parsing and sorting yield exactly the set of clock times in ascending order, or the validation error |
| NextOccurrences.SearchCalendar | cron/schedule.py:127-142 | The nested search finds the least candidate day and time, or says truthfully that there is none |
| NextOccurrences.ComputeNextOccurrence | cron/schedule.py:95-142 | For every kind of task the result is the next occurrence: the least matching moment after the reference |
| OccurrenceLaws.NextIsFirstDue | cron/schedule.py:82-142 | A calendar task runs at the first moment after the reference that is within its date limits, on a listed weekday or Gregorian day of the month, and at a listed clock time |
| OccurrenceLaws.NoneLeft | cron/schedule.py:127-142 | A calendar task that runs no more has no such moment left |
| OccurrenceLaws.RecurringIs | cron/schedule.py:113-122 | A recurring task runs one interval later, or at the start of its first day, and not after its last |
| OccurrenceLaws.OnceIs | cron/schedule.py:106-111 | A task that runs once is due at its moment unless the date limits exclude it |
| OccurrenceLaws.InvalidIff | cron/schedule.py:58-142 | There is an error exactly for an unusable task, or if no day that exists is listed and the end date leaves 20 years to search |
| NextOccurrences.WindowErrorExactly | cron/schedule.py:127-142 | The 20-year-window error occurs if and only if no weekday or month day can ever match and no end date ends the search first |
| NextOccurrences.NextIsUnique | cron/schedule.py:95-142 | The specification leaves exactly one result |
| NextOccurrences.NextIsLater | cron/schedule.py:95-142 | Recurring and calendar tasks are next due strictly after the reference |
| Lifecycles.CronTaskStore.ClaimTask | cron/executor.py:79-91 | Only an enabled task is claimed, with a fresh attempt identity |
| Lifecycles.CronTaskStore.FinishTask | cron/executor.py:94-130 | A finish is applied to the stored record as specified, or leaves it unchanged when it is stale, unusable or refused by the store |
| Lifecycles.CronTaskStore.RevertClaim | cron/executor.py:133-141 | A claim is undone if the store accepts the re-enabled record |
| Lifecycles.RunsNeverExceedMaximum | cron/executor.py:79-141 | In every run of claims, finishes and reverts, repeated reports included, successes never exceed the maximum |
| Lifecycles.OnceSucceedsOnce | cron/executor.py:79-141 | If every attempt reports one outcome at most, a `once` task succeeds at most once in every run |
| Lifecycles.OnceSucceedsOnceIff | cron/executor.py:94-130 | Without that, a fresh `once` task succeeds at most once in every run if and only if its maximum is 1 |
| Lifecycles.FinishIsAcceptedIff | cron/executor.py:94-130 | For every stored record: a stale attempt changes nothing, and exactly when an outcome of the current one is written and a success counted |
| Lifecycles.StorableIff | run/scheduler/cron_store.py:225-249 | What the store insists on: counts within the maximum, no open task without runs left or without a next run |
| Lifecycles.ClaimEffect | cron/executor.py:79-91 | A claim takes an enabled task, hands it to a new attempt and changes nothing else |
| Lifecycles.FinishEffect | cron/executor.py:94-130 | Status, next run and count after each kind of outcome |
| Lifecycles.OutcomeEndsForGood | cron/executor.py:79-141 | If every attempt writes one outcome at most, a task that was completed or cancelled stays as it is in every continuation |
| Lifecycles.NextRunIsLater | cron/executor.py:107-130 | After a counted success of a recurring or calendar task the next run is strictly later than the finish, or the schedule is completed |
| Lifecycles.SecondSuccessCountsIff | cron/executor.py:98-130 | A second success of the same attempt is counted exactly if runs are left and the schedule is usable or no longer needed |
| Lifecycles.RevertIgnoresAttempts | cron/executor.py:133-141 | A run in which a late revert re-enables the task while a later attempt is running, whose outcome is then refused because the task was claimed once more |
| Lifecycles.RevertIsAcceptedIff | cron/executor.py:133-141 | A claim is reverted exactly if a next run is stored and runs are left |
| MessageStates.ProcessedMessageStore.ClaimMany | message/state.py:68-96 | One claim step of the state machine: all keys are claimed or none, and none when one of them is known |
| MessageStates.ProcessedMessageStore.CompleteMany | message/state.py:101-132 | One completion step: all rows get the terminal state, or nothing changes because the state is not terminal, there is no key or one is unknown |
| MessageStates.ProcessedMessageStore.RecoverInterrupted | message/state.py:153-180 | One recovery step: exactly the rows in flight become failed, and none is left in flight |
| MessageStates.ProcessedMessageStore.Trim | message/state.py:182-198 | The oldest terminal rows go until the limit is met; rows in flight stay |
| MessageStates.AtMostOnce | message/state.py:68-180 | Over every run of claims, completions and recoveries, host restarts included, no key is granted twice unless its row was trimmed in between |
| MessageStates.CompletionFindsItsClaim | message/state.py:101-180 | With recovery only when the workers of the previous host are gone, a worker's first completion of its own claim finds every key |
| MessageStates.TrimmingIsBounded | message/state.py:182-198 | Only rows not in flight are trimmed, and at most the larger of the limit and the number in flight remain |
| MessageStates.SurvivingRow | message/state.py:68-180 | What each step writes into each row that it does not trim |
| MessageStates.RefusedChangesNothing | message/state.py:68-180 | Without keys, with a known or an unknown key respectively, with a state that is not terminal, or with nothing in flight, a step changes no row |
| MessageStates.OldestGoFirst | message/state.py:182-198 | No settled row that stays is older than a trimmed one, ties being decided by the key |
| MessageStates.TrimsNoFurther | message/state.py:182-198 | Nothing is trimmed below the limit |
| Routers.MessageRouter.ReleaseCounters | message/router.py:182-191 | The first release of a ticket moves the counters and owes a permit, later ones do nothing, and the books stay kept |
| Routers.MessageRouter.GiveBack | message/router.py:192-193 | A permit that is owed is never refused, and the ticket has then given back exactly one |
| Routers.MessageRouter.QueueStatus | message/router.py:195-204 | The report is the running messages plus those that finished late, and with nothing late or stale the queue length is exactly the messages counted but not running |
| Routers.MessageRouter.Submit | message/router.py:140-159 | Admission, counting and handing over: the message is queued, or everything is given back |
| Routers.MessageRouter.RouteTracked | message/router.py:161-172 | A message that was queued runs, and its ticket is released once |
| Routers.StepAccounts | message/router.py:140-193 | Every step, with every kind of executor, keeps the books, and an owed permit is never refused |
| Routers.TurnedAwayIffFull | message/router.py:140-150 | A new message is turned away exactly when those that arrived, are open or still owe their permit fill the capacity |
| Routers.BooksAreKept | message/router.py:140-193 | For every interleaving permits, open and owing tickets add up to the capacity, `outstanding` is the number of open tickets, each gives back one permit at most, and `active` is the number of running and of late messages |
| Routers.CountersAreExactIff | message/router.py:140-193 | From the start on, each counter is exact if and only if no message is late, or stale |
| Routers.ExactWithoutQueuedFailures | message/router.py:151-157 | As long as a failed submit leaves nothing queued, nothing is ever late or stale |
| Routers.QueuedFailureLeaks | message/router.py:151-157 | A message queued by a failed submit is late once it has run |
| Routers.LateForGood | message/router.py:182-191 | What is late stays late in every continuation, so the error in the active counter never goes away |

## Left out

- Durability details of `atomic`: temporary files left by a crash, fsync ordering and symbolic-link checks.
- Removing a transaction directory file by file: `_prune` drops one transaction in one step.
- ZIP reading, downloads, hashing and the text format of JSON documents and versions, which are parameters.
- Equality of JSON values across types (`1`, `1.0` and `true` in Python): values compare by type and content.
- Installations.Installation.Restore: backups that were damaged on disk after they were written.
- Installations.Installation.Commit: starts without an unfinished journal, as `_run_one` arranges by recovering first.
- Deploys.RunOne: creating the lock file, confirming the question and the content of the record besides versions and digests; preparing the runtime succeeds or fails as a parameter says.
- Pools.FairRequestPool.TryGrant: one check of the condition; blocking, wake-ups and timeouts of `wait` are any number of checks and at most one departure.
- Factories.ProviderFactory.Get: the reported limits of `provider_semaphore_status` and the parsing of configuration values.
- SourceSync.Directory.SyncDirectory: when kinds clash, the resulting tree is described only by what is added; dry runs and symbolic links.
- Patterns compare names exactly; case-insensitive file systems and backslashes inside names are not modelled.
- Rollbacks.UpdateTransaction: the lock, the maintenance marker and pruning of old backups; a backup is a separate tree because `.backups/` is excluded.
- OneShots.StreamingRefinesOneShot: an exact condition for equal reasoning when different fields are read in different deltas (TurnsAreStreamed is a case in which it differs); identification conflicts between pieces of `reasoning_details`; string arguments only, as object-valued fragments have no one-shot counterpart; usage figures, annotations, log probabilities and response metadata.
- Arguments.ArgumentValidator.Check: the cycle check and Python mappings other than `dict`, which parsed text cannot contain.
- Arguments.ParseToolArguments: the path for values that are not text, and the Unicode blanks that `strip` also removes.
- NextOccurrences.ComputeNextOccurrence: ISO parsing, time zones (all moments are Beijing time) and years beyond 9999.
- Lifecycles.OnceSucceedsOnce: assumes one report per attempt, as the scheduler's workers give; OnceSucceedsOnceIff settles the case without it.
- Lifecycles.CronTaskStore.FinishTask: records without an attempt identity, stop reasons, timestamps and results stored for display; the bare comparison of `is_due`.
- Routers.BooksAreKept: a bounded queue; without a bound there are no permits to balance. Shutdown is the cancellation of every queued message.
- MessageStates.AtMostOnce: one store under its own lock; two hosts on one database.
- FastAPI routes, the HTTP bridge, setup, restart, rate limits, candidate ports, version reports and calls to models.
