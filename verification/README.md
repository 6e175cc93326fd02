# A verified model of the SSH gateway's core

The repository is a local SSH control plane: a daemon runs commands, long tasks and file transfers on remote targets for
short-lived clients. Its processes, sockets and files are foreign; between them lie state machines and byte-level
algorithms, and those are modelled here and proved against simple specifications.

How the model is cut:

- Code that one call runs to its end (a loop over a buffer, a quota object, a queue, a parser) is a Dafny method or class
  in the source's own steps, tied by its postcondition to a function of its input or its old state.
- Code that other code can interrupt is a state machine over values. Every `await`, every file-system operation of a
  process and every byte that arrives is a step of its own; the code between two of them is one step. `Reaches` says that
  a state is reached from the start by a list of actions, and the results hold for every such list: any interleaving,
  any number of failures, crashes and restarts.
- Clocks, random tokens, timers and I/O errors are choices of the environment. Random tokens are fresh, digests injective.

| file | what it models |
|---|---|
| `Utf8`, `OutputPaging`, `RollingLog` | text cursors over retained output and over the rolling log of a task |
| `Glob` | the exclusion matcher of directory sync |
| `CommandLine` | Windows command lines, against "Parsing C command-line arguments" of the Microsoft C runtime |
| `Sanitizer`, `SanitizerGrammar`, `Base64`, `Frames`, `SessionParser`, `SessionReady`, `SharedSession`, `SessionProgress` | the shared PuTTY session: sanitizer, frames, parser, and client and broker composed |
| `ExecutorQueue` | the run queue in front of that session |
| `ExecService`, `Reload`, `ReloadHistory`, `ReloadAccounts` | admission of executions, hot reload of generations, and shutdown |
| `RuntimeLock`, `RuntimeLockRace` | the multi-process runtime lock |
| `Groups`, `GroupsProgress`, `GroupsCycles` | group scheduling over a lossy RPC |
| `LogHost` | the crash-safe temporary PuTTY LogHost value |
| `OutputQuota`, `OutputSinks`, `Eviction` | the ledger of retained output, its sinks, and startup eviction |
| `AuditHeadroom` | the audit log's reserved space |
| `RemotePaths`, `PathSafety`, `Upload` | remote paths and the resumable shared-shell upload |
| `Basics`, `Seqs` | options, minima, and sequences folded and concatenated |

Properties that turned out to need a condition:

- A program name comes back from a Windows command line exactly if it holds no quote and no NUL and does not, when it
  needs quotes, end in a backslash (`CommandLine.RoundTrip`; `TrailingBackslashExample` shows one that does not).
- The runtime lock does not exclude in every run: a claim is compared and unlinked in two steps
  (src/daemon/runtime-state.ts:827-836), and two live holders are reachable
  (`RuntimeLockRace.SplitUnlinkBreaksExclusion`). It excludes in every run of the code in which each unlink finds the claim
  that was compared (`RuntimeLock.MutualExclusion`), and so whenever no two live processes are between the comparison and
  the unlink of the same claim (`RuntimeLock.ExclusionOneAtATime`).
- A lone process gets the lock after any crashes exactly if what was left can be read and its writers are dead: an empty
  reclaim file, left by a crash between its creation and its first write, blocks every later start
  (`RuntimeLock.LoneProcessRecovers`, `LoneProcessStuck`).
- A value that another program writes to LogHost survives exactly if the service is not between its look at the registry
  and its own write, and the value is not the temporary one (`LogHost.ThirdPartyValue`).
- Audit follow-ups fit except for what a transfer's completed record leaves in the file when its write fails: its failed
  record then takes a second place (`AuditHeadroom.FollowupsFit`, `LandedFailureOverruns`).
- At every return of an upload the destination is as it was or the staged file if and only if the two names are not one
  file, or nothing may be overwritten, or a resume finds a non-empty partial no shorter than the staged file
  (`Upload.IntactExactlyWhenSafe`). The code itself makes the failing hosts: an exclusive publish interrupted between its
  link and its unlink leaves both names on one file, and the next overwriting upload writes its chunks into the destination
  (`Upload.InterruptedPublishThenDamage`).
- A reload never closes a generation under an execution or a task. It can under a host-key inspection that outlives its
  execution, exactly when the daemon serves and nothing else runs (`Reload.CommitClosesInspected`,
  `InspectionLosesGeneration`).
- The mkdirs of a transfer are the complete chain exactly if the parent is outside the root or the cut behind the root is
  aligned (`RemotePaths.EnsureRemoteParents`); lower-casing that changes a length can break that
  (`RemotePaths.MisalignedExample`), one that keeps each character's length cannot (`RemotePaths.CharFoldAligned`).
- A store whose read limit is below the seven bytes of the alignment probe serves only first pages whose last character
  needs no more than the limit (`OutputPaging.ReadUtf8OutputPage`).
- The comment on `completeUtf8PrefixLength` speaks of valid sequences, but the code looks only at lead bytes and lengths;
  the model follows the code, and `Utf8.CompletePrefixNeverSplits` shows that it still never splits a valid sequence.

## Model

| member | source | states |
|---|---|---|
| `Utf8.CompleteUtf8PrefixLength` | src/shared/utf8.ts:2-36 | the backward scan finds the one place, if any, where the buffer ends in a lead byte whose announced sequence is longer than what follows |
| `Utf8.CompletePrefixMeaning` | src/shared/utf8.ts:2-36 | that place is unique: any position with this property is the one found |
| `Utf8.CompletePrefixNeverSplits` | src/shared/utf8.ts:1-36 | whatever bytes follow, the cut is not inside a valid UTF-8 sequence of the whole (section 4 of RFC 3629) |
| `Utf8.TextSplits` | src/core/exec-service.ts:1380-1430 | at a cut that interrupts no character the replacing decoder gives the same text piecewise as for the whole |
| `Utf8.TextSplitsExactly` | src/core/exec-service.ts:1380-1430 | and at no other cut: there the pieces have more code points than the whole |
| `Utf8.PendingIsPartialTail` | src/shared/utf8.ts:21-35 | whenever the replacing decoder waits for bytes, the scan cuts before exactly the sequence it waits for |
| `Utf8.TextOfEncoded` | src/core/exec-service.ts:1380-1430 | the text of the UTF-8 encoding (section 3 of RFC 3629) of any scalar values is those values |
| `OutputPaging.AlignReadOffset` | src/core/exec-service.ts:1432-1459 | the probe-window search over leads computes the end of the character that covers the offset, and fails exactly when the probe read does |
| `OutputPaging.AlignedOffsetMeaning` | src/core/exec-service.ts:1432-1459 | alignment is the identity outside characters, the character's end inside one, and never inside |
| `OutputPaging.PageIsGood` | src/core/exec-service.ts:1380-1430 | from an aligned offset a page is a slice that ends outside every character, and every page but the last makes progress |
| `OutputPaging.ReadUtf8OutputPage` | src/core/exec-service.ts:1380-1430 | for every read limit of the store: succeeds exactly if the reads it needs are in range, and then returns that page |
| `OutputPaging.ReadOutputText` | src/core/exec-service.ts:1019-1059 | succeeds exactly for a served offset and no cursor or one of the same reference and stream; the next cursor continues at the page's end and is absent exactly at the end of the stream |
| `OutputPaging.FollowCursors` | src/core/exec-service.ts:1019-1059 | following the cursors terminates; the pages concatenate to the stream and their texts to its text, with any limits |
| `RollingLog.RollingByteLog.Append` | src/core/task-store.ts:387-395 | the buffer is exactly the last min(limit, total) of all bytes ever appended |
| `RollingLog.RollingByteLog.Read` | src/core/task-store.ts:397-446 | dropped plus returned bytes are the cursor's advance; refuses exactly cursors outside the log |
| `RollingLog.TakeIsGood` | src/core/task-store.ts:397-446 | a read cuts cleanly and is empty only at the end or while the last character of a running task is still arriving |
| `RollingLog.Task.TailFrom` | src/core/task-store.ts:217-253 | both streams are read from the cursor's offsets; eof exactly once it is over and both are exhausted |
| `RollingLog.PollOnce` | src/core/task-store.ts:217-253 | on a finished task each tail advances every stream that is not exhausted, and reports eof exactly when both are |
| `RollingLog.DrainFinished` | src/core/task-store.ts:217-253 | polling a finished task terminates having returned each retained byte of both streams once, also as text |
| `RollingLog.FollowTask` | src/core/task-store.ts:217-253 | one reader, in any interleaving with output while the task runs, through its end to eof: each piece is the slice of the stream at its cursor behind what was reported lost, nothing still retained is lost, and since the last loss it has the whole stream, also as text |
| `Glob.GlobMatchesPathOrDescendant` | src/core/transfer-service.ts:2042-2084 | the two-array simulation with both early exits returns true exactly if the declarative pattern matches the path or a directory above it |
| `Glob.ExpandEpsilon` | src/core/transfer-service.ts:2086-2099 | one forward pass closes the states under epsilon moves |
| `Glob.MatchesLast` | src/core/transfer-service.ts:2042-2084 | the declarative match, defined from the front, can be decided at the last token: the step that the simulation takes |
| `Glob.DeadForever` | src/core/transfer-service.ts:2042-2084 | once no state is active no longer prefix matches, so leaving early loses nothing |
| `Glob.CompileTokens` | src/core/transfer-service.ts:1987-2023 | the tokens spell the pattern, runs of two or more stars being one globstar |
| `Glob.SpellsUnique` | src/core/transfer-service.ts:1987-2023 | a pattern has exactly one such tokenization |
| `CommandLine.QuoteArgument` | native/windows-job-supervisor/Program.cs:748-790 | the counting loop prints the quoted form: backslashes doubled before quotes and at the end only |
| `CommandLine.BuildCommandLine` | native/windows-job-supervisor/Program.cs:725-746 | refuses NULs and overlong lines, otherwise prints program and arguments with blanks between |
| `CommandLine.ArgumentComesBack` | native/windows-job-supervisor/Program.cs:748-790 | every argument, read by the C runtime's rules up to where the next begins, is itself again |
| `CommandLine.ArgumentsComeBack` | native/windows-job-supervisor/Program.cs:725-790 | so is every list of arguments |
| `CommandLine.RoundTrip` | native/windows-job-supervisor/Program.cs:725-790 | for all NUL-free argument lists the whole line parses back to program and arguments if and only if the program name is safe |
| `CommandLine.TrailingBackslashExample` | native/windows-job-supervisor/Program.cs:748-790 | a quoted program name with a trailing backslash does not come back |
| `Sanitizer.TerminalSanitizer.Feed` | src/infra/putty-shared-executor.ts:1331-1432 | one chunk moves the state and emits what the byte-by-byte machine does |
| `Sanitizer.SanitizeChunks` | src/infra/putty-shared-executor.ts:1331-1432 | however the input is cut, the outputs concatenate to the sanitized whole |
| `Sanitizer.SanitizeProjects` | src/infra/putty-shared-executor.ts:1331-1432 | sanitizing is idempotent and the identity exactly on clean text, and yields clean text |
| `Sanitizer.OutputIsClean` | src/infra/putty-shared-executor.ts:1331-1432 | from any state the output has no ESC, CR, DEL or other C0 control but tab and newline |
| `Sanitizer.CleanHasNoC1` | src/infra/putty-shared-executor.ts:1331-1432 | nor any UTF-8-encoded C1 control |
| `SanitizerGrammar.SanitizeMeaning` | src/infra/putty-shared-executor.ts:1331-1432 | every input is in exactly one way a list of control sequences, system commands, short escapes, encoded C1 controls, line ends, controls and shown bytes, with an unfinished rest, and the output is what those items show |
| `SanitizerGrammar.SanitizeShows` | src/infra/putty-shared-executor.ts:1345-1422 | a whole sequence shows nothing, a return shows a newline, and a line feed behind it, with only sequences between, nothing |
| `SanitizerGrammar.ReadIsOnly` | src/infra/putty-shared-executor.ts:1345-1422 | any list of items is read back from its spelling |
| `Base64.StrictIsCanonical` | src/infra/putty-shared-executor.ts:1864-1874 | the strict decoder accepts exactly the canonical encodings (section 4 of RFC 4648) of non-empty byte strings |
| `Base64.EncodeRoundTrip` | src/infra/putty-shared-executor.ts:545-548 | what is encoded, with any padding, decodes to itself |
| `Base64.Alphabet` | src/infra/putty-shared-executor.ts:545-548 | the sixty-four letters are those of table 1 of RFC 4648 |
| `Base64.QuadBits` | src/infra/putty-shared-executor.ts:545-548 | four letters stand for the 24 bits of three bytes, in order |
| `Frames.ExitRoundTrip` | src/infra/putty-shared-executor.ts:1264-1276 | every 32-bit exit code survives printing and parsing |
| `Frames.ExitExactly` | src/infra/putty-shared-executor.ts:1264-1276 | and nothing else is read as an exit code |
| `Frames.SplitFrame` | src/infra/putty-shared-executor.ts:536-555 | a RUN frame splits at its colons into exactly its eight fields |
| `Frames.FrameRoundTrip` | src/infra/putty-shared-executor.ts:1465-1489 | the broker recovers exactly the request from the frame with the number it expects and refuses it under any other |
| `Frames.PrefixIdentifies` | src/infra/putty-shared-executor.ts:1097-1104 | a line that starts with one command's prefix is no line of another sequence number or nonce |
| `SessionParser.StrayLineFails` | src/infra/putty-shared-executor.ts:1226-1290 | so a line of another command of the session, late or repeated, is never taken for the active one: the session fails |
| `SessionParser.OutputCapture.Append` | src/infra/managed-command.ts:206-214 | after any appends the capture is the first bytes of everything appended, up to the limit, and the count its length |
| `SessionParser.CaptureChunks` | src/infra/managed-command.ts:195-220 | however output is cut into chunks, the capture is the head of their concatenation |
| `SessionParser.EmittedMeaning` | src/infra/putty-shared-executor.ts:1292-1309 | chunk by chunk, a stream's capture is the first bytes of the sanitized whole and its count the whole's length |
| `SessionParser.PersistentProtocolParser.Append` | src/infra/putty-shared-executor.ts:1129-1193 | reading a chunk, with its newline search and its limit, is reading its bytes one at a time |
| `SessionParser.FeedConcat` | src/infra/putty-shared-executor.ts:1129-1147 | so the pieces in which the stream arrives do not matter |
| `SessionReady.BecomesReady` | src/infra/putty-shared-executor.ts:1195-1228 | behind any lines that announce nothing, the first READY line makes the session ready with its hostname if that is valid and canonically encoded, and otherwise fails it; so does a preamble over the limit |
| `SessionReady.QuietLines` | src/infra/putty-shared-executor.ts:1195-1214 | until then the parser waits, counts and notes whether the shell was announced |
| `SharedSession.AcceptEvent` | src/infra/putty-shared-executor.ts:1226-1290 | the parser takes each line of the active command's run for what it is, and the broker's FATAL for a failure |
| `SharedSession.OnlyWantedLines` | src/infra/putty-shared-executor.ts:1226-1290 | once ready the parser takes nothing but the lines of the events it waits for, canonically encoded; any other line fails the session |
| `SharedSession.StepShape` | src/infra/putty-shared-executor.ts:1082-1290 | every step of client, broker and channels keeps them synchronized: all that is on its way belongs to the active command |
| `SharedSession.CompletionsAreRight` | src/infra/putty-shared-executor.ts:1082-1290 | in every run of the two, the k-th completed command reports the exit code of the k-th broker run, which ran exactly the k-th request, and the capped sanitized output of that run alone |
| `SessionProgress.EndedRunCompletes` | src/infra/putty-shared-executor.ts:1129-1290 | in every reachable state in which the run of the active command has ended, the broker lives and no line is over the limit, the command completes with the bytes on their way |
| `ExecutorQueue.SharedExecutor.DrainQueue` | src/infra/putty-shared-executor.ts:182-212 | the loop up to its next await settles aborted runs and starts the first other one |
| `ExecutorQueue.SharedExecutor.Submit` | src/infra/putty-shared-executor.ts:120-155 | refuses after close, settles an aborted run at once, otherwise queues it and ensures a drain |
| `ExecutorQueue.SharedExecutor.OnQueuedAbort` | src/infra/putty-shared-executor.ts:138-145 | takes exactly a still queued run out and settles it |
| `ExecutorQueue.SharedExecutor.DrainEnded` | src/infra/putty-shared-executor.ts:170-180 | forgets the drain and starts another exactly if the queue of an open executor is not empty |
| `ExecutorQueue.SharedExecutor.CloseNow` | src/infra/putty-shared-executor.ts:369-389 | closes, empties the queue and rejects exactly what was queued |
| `ExecutorQueue.SettledOnce` | src/infra/putty-shared-executor.ts:120-212 | in every run of the executor no run settles twice, unsettled ones are queued or active, and one at most is active |
| `ExecutorQueue.SettledByCause` | src/infra/putty-shared-executor.ts:120-212 | a run is settled as executed exactly if it was started, as aborted only if it was aborted, and as refused only by a closed executor |
| `ExecutorQueue.RunsAreSubmissions` | src/infra/putty-shared-executor.ts:120-155 | there is one run for each submission, aborted exactly if its own signal was raised |
| `ExecutorQueue.ListenSettles` | src/infra/putty-shared-executor.ts:138-145 | an abort takes exactly its own run out of the queue |
| `ExecutorQueue.CloseRefuses` | src/infra/putty-shared-executor.ts:369-389 | close refuses exactly what is queued and leaves the active run alone |
| `ExecutorQueue.StartedInOrder` | src/infra/putty-shared-executor.ts:182-212 | runs start in the order submitted, and one is overtaken only if it was aborted |
| `ExecutorQueue.NoForgottenRun` | src/infra/putty-shared-executor.ts:170-180 | as long as a run is unsettled a drain is executing or about to be rescheduled |
| `ExecutorQueue.EverythingSettles` | src/infra/putty-shared-executor.ts:170-212 | without further calls, if executions end, every run is settled exactly once after boundedly many steps |
| `ExecService.Service.StartExecution` | src/core/exec-service.ts:930-989 | refuses at the limit and for a duplicate request, otherwise adds exactly one execution; the counter stays the number of executions |
| `ExecService.Service.RemoveExecution` | src/core/exec-service.ts:1220-1228 | removes exactly that execution, if present, and drops emptied sessions |
| `ExecService.Service.TryBeginReload` | src/core/exec-service.ts:253-274 | grants the lease exactly to an idle, open service without one |
| `ExecService.Service.CommitLease` | src/core/exec-service.ts:288-312 | checks that the lease is open and uncommitted, closing and idleness again and only then changes the generation |
| `ExecService.CommitsOnce` | src/core/exec-service.ts:288-312 | after a commit, accepted or refused, the same lease commits nothing more |
| `ExecService.Service.RemoveTargets` | src/core/exec-service.ts:236-251 | revoking targets changes the registry of an idle service and never its runner |
| `Reload.ReachableInv` | src/daemon/service.ts:512-547 | every step keeps: what runs holds the current runner, the three components agree on it, leases belong to operations, and shutdown closes in order |
| `Reload.RunnersInUseAreCurrent` | src/core/exec-service.ts:253-315 | in every interleaving a runner in use is the current one and neither retired nor told to close, within both concurrency limits |
| `Reload.CommitMustCheckAgain` | src/core/exec-service.ts:288-312 | a transfer can start under an open lease, so only the check at commit keeps its runner |
| `Reload.InspectionsAreCurrent` | src/core/exec-service.ts:494-522 | in every interleaving the generation that a host-key inspection reads is current and open unless the inspection has outlived its execution |
| `Reload.CommitClosesInspected` | src/core/exec-service.ts:494-522 | a commit closes a generation under a pending inspection exactly if the daemon serves and nothing else runs |
| `Reload.InspectionLosesGeneration` | src/core/exec-service.ts:494-522 | a reachable daemon in which that has happened |
| `ReloadHistory.RegistryInForce` | src/daemon/service.ts:526-541 | in every run the registry that executions and transfers use is that of the last accepted commit, removal or metadata update |
| `ReloadHistory.FirstRegistryInForce` | src/daemon/service.ts:420-464 | and the first one until a change is accepted |
| `ReloadHistory.RunnerInForce` | src/daemon/service.ts:526-541 | the runner in force is the candidate that had been prepared when the last accepted commit was made |
| `ReloadAccounts.ExecutionAdmitted` | src/core/exec-service.ts:930-989 | in every reachable state an execution is admitted exactly if the service is open, below its limit and not running it already |
| `ReloadAccounts.TaskAdmitted` | src/core/task-store.ts:108-140 | a task exactly if tasks are not closing and there is room, a transfer also under a lease |
| `ReloadAccounts.NothingLeaks` | src/daemon/service.ts:512-562 | every generation ever prepared is in force, a candidate, or told to close, also after failed reloads |
| `ReloadAccounts.RetiredMeaning` | src/daemon/service.ts:541-548 | the generations to be closed again are exactly those that a commit replaced and no reload has closed since |
| `ReloadAccounts.ChangeExcludes` | src/daemon/service.ts:573-596 | until an accepted change is over no other is accepted and no reload begins |
| `ReloadAccounts.CanStop` | src/daemon/service.ts:326-400 | from every reachable state, if what runs ends, shutdown completes with every generation closed |
| `RuntimeLock.StepKeepsInv` | src/daemon/runtime-state.ts:671-836 | every operation, failure, crash and start of the code keeps what each live process relies on, unless an unlink hits a claim other than the one compared |
| `RuntimeLock.MutualExclusion` | src/daemon/runtime-state.ts:527-574 | in every run in which each unlink finds the claim that was compared, at most one live process holds the lock and the owner file names it |
| `RuntimeLock.ExclusionOneAtATime` | src/daemon/runtime-state.ts:827-836 | the same in every run in which no two live processes are between comparison and unlink of one claim |
| `RuntimeLock.OwnerFileIsSafe` | src/daemon/runtime-state.ts:671-754 | in those runs an owner file disappears only by its own process's release or after its process died |
| `RuntimeLock.ReleaseStep` | src/daemon/runtime-state.ts:732-754 | in those runs, in any interleaving, a process stops holding only by removing its owner file, and then removes the empty directory |
| `RuntimeLock.ReleaseFrees` | src/daemon/runtime-state.ts:732-754 | a holder that is left alone for three operations has freed the lock path, unless a claim is there |
| `RuntimeLock.ReleasedIsTaken` | src/daemon/runtime-state.ts:527-574 | and another process then takes it with two |
| `RuntimeLock.AttemptEnds` | src/daemon/runtime-state.ts:671-836 | whatever the others do, each operation of an attempt, failed or not, brings it nearer its end |
| `RuntimeLock.NoClaimLeft` | src/daemon/runtime-state.ts:690-730 | in runs without I/O errors a process that is in no attempt has no claim in the directory |
| `RuntimeLock.LoneProcessRecovers` | src/daemon/runtime-state.ts:671-836 | after any crashes a lone process takes a recoverable lock within seventeen operations |
| `RuntimeLock.LoneProcessStuck` | src/daemon/runtime-state.ts:671-754 | and never takes one that is not recoverable |
| `RuntimeLockRace.SplitUnlinkBreaksExclusion` | src/daemon/runtime-state.ts:827-836 | a run of the code, with a disturbed unlink, in which two live processes hold the lock |
| `Groups.StartedOnceWithinConcurrency` | src/mcp/groups.ts:205-243 | in every run with lost answers, unreachable status and cancellation each start is sent at most once, with its command, and tasks really running plus starts in flight never exceed the concurrency |
| `Groups.EndedIsOver` | src/mcp/groups.ts:205-215 | a member recorded as finished and not being dispatched neither runs nor can still run; `GroupsProgress.RefreshRecords` is the other direction |
| `Groups.PlanFillsSlots` | src/mcp/groups.ts:218-224 | a plan leaves a queued member out only if every slot is claimed, and never for a later one |
| `Groups.CancelStopsSending` | src/mcp/groups.ts:256-275 | after cancel only starts that were already connecting are still sent, and no more begin |
| `GroupsProgress.RefreshRecords` | src/mcp/groups.ts:205-215 | after a refresh with truthful answers every known member whose task had ended is recorded as ended |
| `GroupsProgress.BatchCompletes` | src/mcp/groups.ts:205-243 | in every run without losses and cancellation at most 8n cycles start with work left and nothing running, steps are bounded by cycles, the run never gets stuck, and at its end each enabled member was sent exactly once and is over |
| `GroupsCycles.CycleShrinks` | src/mcp/groups.ts:205-243 | whatever is lost or cancelled, every step of a cycle brings it nearer its end and nothing else delays it |
| `GroupsCycles.CycleGoesOn` | src/mcp/groups.ts:216-243 | and in every reachable state such a step can be taken |
| `GroupsCycles.AmbiguousForGood` | src/mcp/groups.ts:228-238 | a start whose outcome is unknown keeps its slot for good and is never sent again |
| `GroupsCycles.ScriptsDropped` | src/mcp/groups.ts:236-238 | a script is retained only for a start that has not been settled, and none after cancel has dropped them |
| `GroupsCycles.CancelIsFinal` | src/mcp/groups.ts:256-275 | after cancel, for ever, nothing is queued and what had not begun to be sent is not |
| `GroupsCycles.StopIsRecorded` | src/mcp/groups.ts:264-273 | cancel asks about each known member not recorded as ended, and records the answer that its task is over |
| `LogHost.CrashSafe` | src/test-ui/accessclient-session.ts:266-359 | wherever the service stops, after any failures, crashes and restarts, a recovery that succeeds restores the value before arming and leaves no marker |
| `LogHost.StepOwes` | src/test-ui/accessclient-session.ts:503-524 | every step keeps the value that the service owes |
| `LogHost.FailedRestoreBlocks` | src/test-ui/accessclient-session.ts:690-706 | after a failed restore no arming changes marker or registry until a restart |
| `LogHost.ArmedIsSet` | src/test-ui/accessclient-session.ts:266-330 | in every run an armed service has its own temporary value in the registry and the value before it in the marker |
| `LogHost.ArmingArms` | src/test-ui/accessclient-session.ts:266-330 | three operations that succeed arm a service that finds no marker |
| `LogHost.FinishRestores` | src/test-ui/accessclient-session.ts:503-524 | finishing an armed service restores the original and removes the marker |
| `LogHost.ClosedArmsNoMore` | src/test-ui/accessclient-session.ts:159-170 | a closed service stays closed and begins no arming until it is restarted |
| `LogHost.WhatCloses` | src/test-ui/accessclient-session.ts:247-320 | close() closes it, and so does an arming that could not be undone |
| `LogHost.BrokenUntilRestart` | src/test-ui/accessclient-session.ts:154-163 | a service that could not recover at its start changes nothing until it is restarted |
| `LogHost.ThirdPartyValue` | src/test-ui/accessclient-session.ts:517-524 | in every reachable state another program's value is left alone by all that follows if and only if it is spared |
| `OutputQuota.RetainedByteQuota.Reserve` | src/core/output-store.ts:257-286 | grants what both limits allow and charges it |
| `OutputQuota.RetainedByteQuota.TrackExisting` | src/core/output-store.ts:288-300 | registers a reference, or changes nothing |
| `OutputQuota.RetainedByteQuota.Release` | src/core/output-store.ts:302-310 | takes the reference's whole charge back |
| `OutputQuota.ReserveMeaning` | src/core/output-store.ts:257-286 | the total stays the sum of the charges within both limits, only that charge grows, and a request is cut short only by a limit then exhausted |
| `OutputQuota.TrackMeaning` | src/core/output-store.ts:288-300 | succeeds exactly for a new reference for which both limits leave room |
| `OutputQuota.ReserveThenRelease` | src/core/output-store.ts:257-310 | releasing a new reference undoes its reservation |
| `OutputSinks.StepKeepsInv` | src/core/output-store.ts:1002-1153 | every step of every sink keeps the ledger |
| `OutputSinks.LedgerHolds` | src/core/output-store.ts:1002-1084 | in every interleaving each charge covers its files until release, so all files together stay within the byte limit |
| `OutputSinks.StoredIsPrefix` | src/core/output-store.ts:1002-1084 | files hold a prefix of what was appended, and all of it exactly if no limit was reported |
| `OutputSinks.AppendStores` | src/core/output-store.ts:1002-1084 | an append stores exactly as much of its chunk as the limits leave room for, charges that, and reports a limit exactly if it is not all |
| `OutputSinks.PublishedExactlyWhenNeeded` | src/core/output-store.ts:1086-1153 | finalize publishes exactly if some stream exceeds the inline limit; otherwise the inline text is everything |
| `OutputSinks.EndingCloses` | src/core/output-store.ts:919-1000 | finalize and abort close the sink whatever they meet with |
| `OutputSinks.ReleaseGivesBack` | src/core/output-store.ts:966-1000 | the charge of a sink whose files are gone is given back |
| `Eviction.SortedMeaning` | src/core/output-store.ts:590-600 | the entries are permuted into (expiry, reference) order |
| `Eviction.CutMeaning` | src/core/output-store.ts:609-622 | an entry is evicted exactly if it and all that outlive it do not fit: the shortest prefix |
| `Eviction.Evict` | src/core/output-store.ts:601-622 | the loop with running totals evicts that prefix |
| `Eviction.AdoptRetainedEntries` | src/core/output-store.ts:587-628 | registering the survivors in the order found never fails, and the quota then holds exactly them |
| `AuditHeadroom.FollowupsFit` | src/infra/audit-writer.ts:628-654 | in every run, from a log of any size, the file plus one maximal record per outstanding follow-up exceeds the limit by at most what failed completed records have left since the start; a follow-up is refused for size only if they left more than the place it does not need |
| `AuditHeadroom.NormalWrite` | src/infra/audit-writer.ts:594-605 | a record that is no follow-up keeps clear of the whole headroom |
| `AuditHeadroom.LandedFailureOverruns` | src/core/transfer-service.ts:412-446 | a completed record that lands although its write fails can make a later follow-up be refused |
| `AuditHeadroom.LeakStep` | src/core/transfer-service.ts:412-446 | what is counted as left behind is what the file grew by in failed writes of completed records |
| `AuditHeadroom.SlotsComeFree` | src/core/transfer-service.ts:412-446 | whatever its records meet with, each step of an execution or transfer brings its slot nearer to being free |
| `RemotePaths.NormalizeIsCanonical` | src/core/transfer-paths.ts:139-157 | normalization yields canonical paths, leaves exactly those alone, and is idempotent |
| `PathSafety.NormalizeExactly` | src/core/transfer-paths.ts:139-157 | exactly the values that are absolute, short enough, free of control characters and of pieces "." and "..", and on Windows of names that Windows refuses, are accepted, and turned into the drive and the segments they split into |
| `PathSafety.ByteLengthIs` | src/core/transfer-paths.ts:427-438 | the length that is limited is that of the UTF-8 encoding |
| `PathSafety.SplitIsUnique` | src/core/transfer-paths.ts:150-156 | a text splits into segments in one way only |
| `PathSafety.NormalizedGoesDown` | src/core/transfer-paths.ts:150-156 | no piece of a normalized path is "." or ".." |
| `PathSafety.ContainedLeadsInside` | src/core/transfer-service.ts:2123-2137 | a normalized path is contained in a normalized root if and only if, read name by name with "." and ".." followed, it leads to a place at or below it |
| `RemotePaths.WindowsCanonical` | src/core/transfer-paths.ts:377-405 | a normalized Windows path is an upper-case drive and valid segments within the length limit |
| `RemotePaths.ContainedMeaning` | src/core/transfer-service.ts:2123-2137 | containment is the segment prefix, case-folded, on the same drive, also for a folding that changes lengths |
| `RemotePaths.StagingPathContained` | src/core/transfer-service.ts:791-803 | the staging path of a contained path is contained unless the path is the root and that is no filesystem root |
| `RemotePaths.JoinedPath` | src/core/transfer-service.ts:2107-2109 | a joined sync path is base and relative segments, under every root above the base |
| `RemotePaths.EnsureRemoteParents` | src/core/transfer-service.ts:1408-1450 | the mkdirs are always a chain below the root, and exactly for an aligned cut the one from the root to the destination's parent, none if that is outside |
| `RemotePaths.CutExact` | src/core/transfer-service.ts:1425-1450 | cutting the root's length off the parent leaves the segments below the root if and only if the cut is aligned |
| `RemotePaths.CharFoldAligned` | src/core/transfer-service.ts:2123-2137 | it is, if case folding keeps the length of each character, and so always on POSIX |
| `RemotePaths.MisalignedExample` | src/core/transfer-service.ts:1425-1450 | with a letter that lower-cases to two characters the cut goes through a segment |
| `RemotePaths.ChainMeaning` | src/core/transfer-service.ts:1425-1450 | the chain is complete, ordered and inside the root: each entry is one segment longer |
| `Upload.UploadThroughSharedShell` | src/core/transfer-service.ts:1053-1102 | the loop over short reads, with its aborts and failed writes, refines `Sent` |
| `Upload.SentFacts` | src/core/transfer-service.ts:1053-1102 | with any chunking the partial ends as the old part continued from the offset; it fails only by trouble or for want of a partial, and the destination changes only if it is the same file |
| `Upload.Transfer` | src/core/transfer-service.ts:955-995 | sending, comparing and the one restart refine `Transferred` |
| `Upload.TransferredFacts` | src/core/transfer-service.ts:955-995 | sending succeeds only with the staged bytes in place, and without trouble always: a wrong partial is repaired by one restart |
| `Upload.UploadFile` | src/core/transfer-service.ts:902-1015 | on every host, whatever the partial holds and the operations do: a normal return means the staged file is in place, without trouble it returns normally exactly if it may write there, and a safe upload leaves the destination untouched or the staged file, a checksum error the former |
| `Upload.UploadedFacts` | src/core/transfer-service.ts:902-1015 | the same of the function that the method refines, for all fates |
| `Upload.IntactExactlyWhenSafe` | src/core/transfer-service.ts:902-1015 | the destination is intact at every return under all fates if and only if the upload is safe |
| `Upload.ResumeIsRight` | src/core/transfer-service.ts:934-953 | continuing a partial gives the right fingerprint exactly if it is a prefix |
| `Upload.RemoteHost.Write` | src/infra/shared-shell-transfer.ts:214-250 | truncating replaces, appending needs an existing file and extends it |
| `Upload.InterruptedLeavesLink` | src/core/transfer-service.ts:1466-1500 | an exclusive upload interrupted between link and unlink ends with both names on one file |
| `Upload.InterruptedPublishThenDamage` | src/core/transfer-service.ts:902-1015 | after it an overwriting upload aborted behind its first chunk ends with a destination that is neither the old nor the staged file |
| `Upload.FailureCleansUp` | src/core/transfer-service.ts:1006-1015 | without resume and abort a failed upload whose removal succeeds leaves no partial; otherwise the partial stays as it was |
| `Upload.ExclusivePublish` | src/core/transfer-service.ts:1466-1500 | an exclusive publish takes the file over or is refused, and what an interrupted one leaves |
| `Upload.ReplacingPublish` | src/infra/shared-shell-transfer.ts:152-185 | a replace moves the partial, or of two names of one file removes at most the partial's |

## Left out

- Interleaved services (reload, groups, lock, LogHost, sinks, audit, shared session) are state machines over values: sharing of JavaScript objects between components is not captured.
- Process spawning, Job Objects, pipes, sockets, access-control hardening, schemas, configuration files, CLI, HTTP UI and MCP registration.
- SFTP batches and the shared-shell download; SFTP's resume is an external program's.
- Authorization branches, probe parsers, audit normalization and redaction; each is settled by reading one branch.
- Audit records of probes, which are written after their execution's slot is given back.
- Validation of exclusion patterns before they are compiled (length, control characters, leading slash, `..`).
- OutputPaging.FollowCursors: requires a read limit of at least 7 bytes, the size of the alignment probe; below it the store refuses every second page, as `ReadOutputText` states.
- RemotePaths.ContainedMeaning: case folding is any function that works on each side of a slash by itself, makes no slashes, drops nothing and adds up lengths; which characters it maps to which is not modelled.
- Upload.UploadFile: nobody else writes the two files; a move is atomic, and of two names of one file it removes one or does nothing.
- Groups.StartedOnceWithinConcurrency: a cycle itself is taken not to reject; the widths of the parallel maps are not modelled, which allows more interleavings, not fewer.
- SharedSession.CompletionsAreRight: starts from a session whose READY line was read; output sinks, which may fail a command, appear only as the client's failure.
- The broker's shell is a party that runs one request at a time and prints its output in non-empty chunks; what the command does is its own.
- Order of events between streams: captures and files are stated stream by stream.
