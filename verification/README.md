# Dispatcher: verified model of its protocols

Dispatcher runs jobs on rented VMs. This project models, in Dafny, the parts of it
where a mistake costs money or loses work: the lease that keeps a VM alive, the approval
gate, the draining of a child's output, the history file that several processes share, the
scripts that a remote shell reads back, the key of the build cache, creating and
rolling back cloud resources, the choice of an instance, the price cache and the garbage
collector. Time, the cloud, the shell and the file system are small explicit
environments that may fail at every step; a main result quantifies over all of their
behaviours.

`dafny verify dfyconfig.toml` checks the whole project.

| file | what it holds |
|---|---|
| `Lease.dfy` | watchdog deadline, renewal loops, polling VM with reboots |
| `ApprovalGate.dfy` | first decision wins, a denial overrides, the gate closes |
| `LogPipe.dfy` | one drainer for a bounded pipe |
| `History.dfy` | shared history file, UTF-8 truncation, median |
| `Shell.dfy`, `EnvScript.dfy`, `KeyOrder.dfy` | a POSIX shell lexer and the texts printed for it |
| `BuildKey.dfy`, `BuildTree.dfy` | the byte stream behind the image tag, and which trees share it |
| `Retry.dfy`, `AwsCreate.dfy` | backoff, idempotent launch, security-group rollback |
| `Firecracker.dfy`, `FirecrackerRuns.dfy` | /30 allocation, host rules, all runs of creates and teardowns |
| `Provisioning.dfy` | rollback of a failed run, cleanup of a finished one |
| `Catalog.dfy`, `Estimator.dfy` | cheapest satisfying instance, live-price merge |
| `PricingCache.dfy` | TTL cache with stale fallback, any number of processes |
| `Gc.dfy`, `GcRuns.dfy` | what the garbage collector may destroy, and its race with executors |
| `Common.dfy`, `Decimal.dfy`, `Runs.dfy` | option and result types, decimal text, runs of a transition system |

## Where the code falls short of its promise

Each of these is stated as an exact condition, with a run or an input that shows the failure.

- The setup renewal loop arms its ticker only after its first renewal has returned, so the
  time of that call counts twice against the TTL (`LeaseSafety.SafetyExact`,
  `LeaseSafety.OneCallTimeIsNotEnoughForSetup`).
- A reboot between truncating and writing the deadline file leaves it empty; the poll's
  numeric test then fails as an error and the VM never destroys itself
  (`LeaseBound.InterruptedWriteIsImmortal`, `LeaseBound.EmptyFileOutlives`).
- A log writer that fails stops the local drainer while the pipe stays open, so a child with
  more left to write than the pipe holds blocks, and Status with it, until the child is killed
  (`LogPipe.WriterFailureDeadlocks`, `LogPipe.DoomEndsByKill`); one that never returns holds the
  local Status for good (`LogPipe.BlockedWriterHoldsStatus`).
- A compaction whose scan stops short (an unreadable file, an over-long line) rewrites the
  history without what it did not read (`HistoryLog.CompactionExact`).
- A directory or program name that starts with `-` is taken as an option by `cd` or `exec`; a
  directory that cannot be entered does not stop the script, and the program runs in the login
  directory (`EnvScript.MissingDirectoryRunsElsewhere`); and a variable that the shell owns, such
  as UID in bash, does not reach the program as given
  (`EnvScript.ScriptRoundTrip`, `EnvScript.UidIsLost`).
- A source directory that is itself called `.git` or `.dispatcher` is skipped whole
  (`BuildTree.RootNameExactly`), and empty directories and the permission bits of directories,
  which an image would hold, do not reach the key (`BuildTree.EmptyDirectoryIsInvisible`,
  `BuildTree.DirectoryModeIsInvisible`).
- Doubling a delay of 2^62 ns or more overflows it (`Retry.ScheduleExact`,
  `Retry.DoublingOverflows`).
- A launch without run id and name carries no token and can be duplicated
  (`AwsCreate.AtMostOneExactly`); an adopted security group is not deleted when its
  authorization is refused; a failed wait for an address terminates in the provider's default
  region, which misses an instance launched elsewhere unless the caller re-pointed that region
  first (`AwsCreate.AwsProvider.CreateVM`, `AwsCreate.AwsProvider.Launch`).
- Clearing stale state of a new microVM falls back to its hash bucket, and so deletes the NAT
  rule of a live VM that has that block: the very collision that probing exists for
  (`FirecrackerRuns.CollidingCreateCutsNat`, `FirecrackerRuns.IdleTeardownExact`).
- A run directory that the allocation scan cannot read counts as unused, so two live VMs can end
  up on one block (`FirecrackerRuns.ApartExactly`, `FirecrackerRuns.UnreadDirectoryShares`).
- Two run ids with the same crc32 share a tap: clearing stale state of the second deletes the
  live one's tap and forwarding rules, even if its creation then succeeds
  (`FirecrackerRuns.TapTakenExactly`, `FirecrackerRuns.TwinLosesForwarding`).
- A wrapper script whose write or chmod fails half-way is not on the list of files to remove
  (`Provisioning.RollbackExact`).
- A CPU requirement of 2^63 or more can wrap to a negative number, which every row meets
  (`Estimator.KnownVcpusExactly`).
- gc reads the records before it lists the resources, so a run that is recorded and creates
  its VM in between loses it (`GcRuns.DestroysProtectedExactly`, `GcRuns.LateRunIsDestroyed`), as
  does a run whose record could not be saved (`GcRuns.UnsavedRunIsDestroyed`).

The comment at `internal/cloudvm/firecracker_net.go:8-11` says that create and teardown agree
without shared allocator state; the code allocates and persists an index, and the model
follows the code.

## Model

| member | source | states |
|---|---|---|
| `LeaseSafety.SafetyExact` | internal/cloudvm/adapter.go:381-412 | for every TTL of at least 3 s, in every run in which no two consecutive renewals are lost, no poll after the first landed renewal sees NOW > DEADLINE, if and only if a call fits in a period and the ticker's late start, two periods, a call and the skew fit in the TTL; whole-second truncation on both sides included |
| `LeaseSafety.InvStep` | internal/cloudvm/adapter.go:390-401 | every event of the loop, the ticker, the write or the clock keeps the bound on when the next renewal is issued |
| `LeaseSafety.FitsIsSafe` | internal/cloudvm/watchdog.go:86-94 | the timing condition suffices |
| `LeaseSafety.LateThirdRenewalKills` | internal/cloudvm/adapter.go:384-401 | a schedule that does not fit has a run that kills a renewed VM |
| `LeaseSafety.SlowCallsKill` | internal/cloudvm/confidential_sshvm.go:48-65 | calls slower than the period kill a VM renewed by the confidential loop |
| `LeaseSafety.ThirdOfTtlIsEnough` | internal/cloudvm/adapter.go:406-412 | call time plus skew within ttl/3 is enough, the immediate call counted twice |
| `LeaseSafety.OneCallTimeIsNotEnoughForSetup` | internal/cloudvm/adapter.go:384-391 | counting it once is not enough: a concrete failing instance |
| `LeaseBound.Bounded` | internal/cloudvm/watchdog.go:77-115 | in every run a VM that is up with a non-empty deadline file is gone within ttl + 61 s + skew of the last landed renewal, across reboots and removals of the file |
| `LeaseBound.FirstLatePollKills` | internal/cloudvm/watchdog.go:86-94 | the first poll, or the first after a reboot, past the deadline destroys the VM |
| `LeaseBound.EmptyFileNeverKills` | internal/cloudvm/watchdog.go:86-94 | once the file is empty and nobody writes it, every continuation of the run without a new renewal keeps the VM alive |
| `LeaseBound.EmptyFileOutlives` | internal/cloudvm/watchdog.go:86-94 | and some continuation is up any number of poll periods later |
| `LeaseBound.InterruptedWriteIsImmortal` | internal/cloudvm/watchdog.go:118-127 | a run with one renewal, interrupted by a reboot, that ends in such a state |
| `ApprovalGate.Gate.Settle` | internal/approval/store.go:107-127 | new state of the gate and whether the vote was taken |
| `ApprovalGate.Gate.Abandon` | internal/approval/store.go:129-135 | an unsettled gate is closed, a settled one is left |
| `ApprovalGate.Gate.TakeResult` | internal/approval/store.go:185-227 | reads the result and closes the gate in one critical section |
| `ApprovalGate.HandleMessage` | internal/approval/store.go:241-285 | the reply to every message and the gate after it; a decision is acknowledged exactly when the gate takes it, under the name received |
| `ApprovalGate.ApproverVote` | internal/approval/store.go:192-204 | an in-process approver approves exactly without an error |
| `ApprovalGate.InvHolds` | internal/approval/store.go:107-135 | the invariant of every interleaving of votes, read and cancellation |
| `ApprovalGate.AtMostTwoAccepted` | internal/approval/store.go:107-127 | the result channel is closed at most once, at most two votes are taken, a second one is a denial of an approval |
| `ApprovalGate.VerdictSnoc` | internal/approval/store.go:107-127 | how one more vote changes the deny-first verdict, which is a denial exactly when there is one |
| `ApprovalGate.GateIsVerdict` | internal/approval/store.go:107-127 | the gate always holds the deny-first verdict of all votes so far |
| `ApprovalGate.RecordIsVerdict` | internal/approval/store.go:185-227 | the run acts on the verdict of exactly the votes cast before the read |
| `ApprovalGate.ClosedForGood` | internal/approval/store.go:185-227 | after the read, or the cancellation of an unsettled gate, nothing is ever taken or changed |
| `ApprovalGate.AcknowledgedDenialStops` | internal/approval/store.go:185-227 | the record is Denied exactly when some denial is ever acknowledged |
| `ApprovalGate.AcceptedAfterCancel` | internal/approval/store.go:129-135 | what can still be acknowledged after a cancellation: exactly a denial of an approval |
| `LogPipe.LocalState.Claim` | internal/adapter/local.go:194-216 | the claim succeeds at most once |
| `LogPipe.LocalState.CloseWrite` | internal/adapter/local.go:141-192 | Status closes its write end after the child has exited |
| `LogPipe.LocalState.CloseRead` | internal/adapter/local.go:141-192 | and the read end last |
| `LogPipe.ReachableInv` | internal/adapter/local.go:141-216 | claim, channel, pipe-end and byte invariants of every interleaving of Status with any number of Logs calls, both variants |
| `LogPipe.SingleClaimant` | internal/adapter/ssh.go:207-243 | at most one drainer, its channel closed at most once, the read end closed only after the copy ended |
| `LogPipe.NothingLost` | internal/adapter/local.go:141-216 | without a failed writer the drainer has taken exactly what the child wrote, in order: its whole output, or what it wrote before a kill |
| `LogPipe.Progress` | internal/adapter/ssh.go:459-474 | Status can always get on unaided, except exactly on a child blocked behind a failed (local) or blocking writer, or on the done channel of a blocking one (local) |
| `LogPipe.BudgetShrinks` | internal/adapter/local.go:141-216 | every step of anybody uses up part of a finite budget |
| `LogPipe.RunsAreBounded` | internal/adapter/local.go:141-216 | so no run, kills included, is longer than its first state's budget, and Status terminates |
| `LogPipe.DoomExactly` | internal/adapter/local.go:194-216 | which single event dooms a run, exactly, and that a kill is the one event that ends the doom |
| `LogPipe.ExitedFinishes` | internal/adapter/local.go:164-187 | once the child has exited, Status returns after finitely many steps |
| `LogPipe.DoomEndsByKill` | internal/adapter/local.go:353-359 | a doomed run ends exactly by a kill: no continuation without one lets Status return, and after one it does |
| `LogPipe.BlockedWriterHoldsStatus` | internal/adapter/local.go:164-187 | with a log writer that never returns, no continuation at all, kills included, lets the local Status return |
| `LogPipe.NeverDoomed` | internal/adapter/ssh.go:207-243 | without a blocking writer, ssh runs, and local runs without a failed writer, never get stuck |
| `LogPipe.DoomPossibleExactly` | internal/adapter/local.go:194-216 | a doomed state is reachable if and only if the run is local and the output is more than one byte longer than the pipe |
| `LogPipe.WriterFailureDeadlocks` | internal/adapter/local.go:194-216 | the reachable deadlock of each such run |
| `LogPipe.WriterCanBlock` | internal/adapter/local.go:194-216 | a reachable state with a blocked drainer for every output |
| `HistoryLog.Store.constructor` | internal/cost/history.go:333-348 | the newest 500 entries of the scan, after a compaction if the file is above 800000 bytes, whatever fails in it; with full scans file and list keep the promise for every append order |
| `HistoryLog.Store.Record` | internal/cost/history.go:90-132 | refuses a line above 4096 bytes; appends to the file and to the capped list; what is kept when the lock, the write or the close fails |
| `HistoryLog.Store.Compact` | internal/cost/history.go:382-426 | the list becomes the newest scanned entries and the file too, or nothing changes, exactly by which step fails; with a full scan file and list keep the promise for every append order |
| `HistoryLog.FileSizeAdds` | internal/cost/history.go:345-347 | the size is that of the lines with their newlines |
| `HistoryLog.CompactionExact` | internal/cost/history.go:308-331 | a compaction keeps the promise if and only if what it keeps of its scan is what it would keep of the whole file |
| `HistoryLog.ShortScanBreaks` | internal/cost/history.go:308-331 | for different entries: if and only if the scan read the whole file |
| `HistoryLog.Invariants` | internal/cost/history.go:353-426 | one compactor at a time, capped memories, and the file's promise, in every run |
| `HistoryLog.FileIsRecentHistory` | internal/cost/history.go:353-426 | with any number of processes and crashes at any point, the file is a suffix of the append order with at least min(500, appended) entries |
| `HistoryLog.MemoryIsCapped` | internal/cost/history.go:90-132 | no store holds more than 500 entries, whatever fails |
| `HistoryLog.MemoryIsNewest` | internal/cost/history.go:120-131 | each step's effect on the list in memory: the newest of what was read, with each entry recorded |
| `HistoryLog.ShortScanLosesHistory` | internal/cost/history.go:308-331 | one unreadable scan wipes the history |
| `HistoryName.CutValidExactly` | internal/cost/history.go:34-42 | a cut of valid UTF-8 is valid exactly at the end or before a rune's first byte |
| `HistoryName.TruncateToRuneBoundary` | internal/cost/history.go:34-42 | the longest valid prefix within the limit, at most three bytes short of it |
| `HistoryMedian.Median` | internal/cost/history.go:428-443 | the upper median by counting, computed with the exchange sort |
| `HistoryMedian.SelectMin` | internal/cost/history.go:428-443 | one pass of the sort puts the least of the rest in place |
| `HistoryMedian.MedianUnique` | internal/cost/history.go:428-443 | no list has two such medians |
| `Shell.QuoteArgsRoundTrip` | internal/adapter/shared.go:70-81 | a POSIX shell lexer reads back exactly the arguments, for every list of strings |
| `Shell.QuoteArgsInjective` | internal/adapter/shared.go:75-81 | no two lists have the same text |
| `EnvScript.IsValidEnvKey` | internal/workload/env.go:69-85 | the loop accepts exactly the POSIX names |
| `EnvScript.ApplyExtraEnv` | internal/adapter/shared.go:90-103 | a key is in the result exactly if it is in the first map or a later one, with the value of the last that has it; fails exactly on an invalid key, for every iteration order |
| `EnvScript.MergeIsMerged` | internal/adapter/shared.go:90-103 | the same of the merge that the scripts are specified by |
| `EnvScript.DotEnvExportScript` | internal/adapter/shared.go:251-272 | one export line per variable, for every iteration order |
| `EnvScript.ScriptParses` | internal/adapter/ssh.go:144-148 | the remote shell reads one cd, the exports and one exec |
| `EnvScript.ExportAllExactly` | internal/adapter/shared.go:251-272 | exporting a map in any order adds exactly the map, if and only if the shell hands its own names on as asked |
| `EnvScript.ScriptRoundTrip` | internal/adapter/ssh.go:144-153 | for every shell, evaluating the script yields exactly the directory, the merged environment and the argv, if and only if the shell enters the directory, neither operand starts with '-' and the shell hands its own names on as asked |
| `EnvScript.MissingDirectoryRunsElsewhere` | internal/adapter/ssh.go:144-153 | a cd that fails does not stop the script: the program runs with its environment in the login directory |
| `EnvScript.ObligedExactly` | internal/workload/env.go:69-85 | every shell that owns given names does so, if and only if the map has none of them |
| `EnvScript.UidIsLost` | internal/workload/env.go:69-85 | UID is a valid key, and a shell that keeps its own UID breaks the round trip |
| `EnvScript.SshCommandScript` | internal/adapter/ssh.go:144-153 | the whole command branch, from the env maps to what every remote shell executes, with the exact condition; fails exactly on an invalid key |
| `EnvScript.DotEnvFileLines` | internal/adapter/shared.go:285-314 | the lines in ascending order of their keys; fails exactly on a value with a newline or the terminator, and names the least such key |
| `EnvScript.SortedKeysUnique` | internal/adapter/shared.go:297-301 | there is one ascending key list, so the text is a function of the map |
| `EnvScript.HereDocumentRoundTrip` | internal/adapter/ssh.go:196-205 | the shell feeds docker exactly the rendered lines, no expansion and no early end |
| `EnvScript.DockerCommandsAre` | internal/adapter/ssh.go:196-205 | which three commands, word by word |
| `EnvScript.EnvFileRoundTrip` | internal/adapter/shared.go:285-314 | splitting at newlines and the first '=' gives the map back if and only if no value has a newline |
| `EnvScript.SshDockerScript` | internal/adapter/ssh.go:130-143 | the whole docker branch: when it fails, what the shell runs, and that the container's env file reads back as the merged map |
| `BuildKey.Hasher.HashChunk` | internal/adapter/buildcache.go:92-97 | feeds the length and the bytes |
| `BuildKey.BuildDigestStream` | internal/adapter/buildcache.go:23-87 | the walk feeds exactly the framed chunks of its entries; fails exactly when the Dockerfile or a file or directory it visits cannot be read |
| `BuildKey.FramesRoundTrip` | internal/adapter/buildcache.go:92-97 | length-prefixed chunks decode uniquely |
| `BuildKey.EntriesRoundTrip` | internal/adapter/buildcache.go:48-80 | the mode chunk decides how many chunks follow, so the entries decode uniquely |
| `BuildKey.StreamInjective` | internal/adapter/buildcache.go:23-97 | the stream is equal if and only if the Dockerfile and the ordered entries are |
| `BuildTree.WalkAllIsLeaves` | internal/adapter/buildcache.go:33-52 | the walk meets exactly the leaves of the canonical form (no skipped directory, no directory without entries, no directory modes), in order |
| `BuildTree.PathInjective` | internal/adapter/buildcache.go:44-52 | a relative path determines the names on it |
| `BuildTree.ForestInjective` | internal/adapter/buildcache.go:33-80 | the leaves determine a canonical forest |
| `BuildTree.WalkExact` | internal/adapter/buildcache.go:33-80 | two trees have the same entries if and only if their canonical trees are the same |
| `BuildTree.KeyExact` | internal/adapter/buildcache.go:23-97 | equal streams if and only if equal Dockerfiles and equal canonical trees |
| `BuildTree.RootNameExactly` | internal/adapter/buildcache.go:37-43 | renaming the source directory keeps the key if and only if both names or neither are skipped, or the directory holds no entry |
| `BuildTree.HiddenExactly` | internal/adapter/buildcache.go:37-43 | a directory with entries is hidden from the key if and only if it is .git or .dispatcher |
| `BuildTree.EmptyDirectoryIsInvisible` | internal/adapter/buildcache.go:37-43 | two trees that differ in an empty directory share their key |
| `BuildTree.DirectoryModeIsInvisible` | internal/adapter/buildcache.go:37-43 | the permission bits of a directory do not reach the canonical tree, and so not the key |
| `Retry.Retry` | internal/cloudvm/retry.go:27-57 | 1 to max(1, MaxAttempts) calls, all but the last transient failures; nil exactly when the last succeeded; no sleep after a non-transient error; sleeps on schedule |
| `Retry.NilExactly` | internal/cloudvm/retry.go:36-56 | nil if and only if a call within the attempts succeeds after nothing but transient failures |
| `Retry.UncappedDoubling` | internal/cloudvm/retry.go:51-54 | without a positive cap the sleeps double |
| `Retry.DefaultInitial` | internal/cloudvm/retry.go:31-34 | without a positive initial delay the first sleep is 100 ms |
| `Retry.ScheduleExact` | internal/cloudvm/retry.go:49-54 | for 0 < Initial <= Max every sleep the policy's loop can make is min(Initial * 2^k, Max), if and only if there is no second sleep or the last but one is below 2^62 ns |
| `Retry.DoublingOverflows` | internal/cloudvm/retry.go:51-54 | three attempts with Initial = Max = 2^62 ns: the second sleep is negative |
| `Retry.FirstSleepUncapped` | internal/cloudvm/retry.go:31-34 | an initial delay above the cap is slept once in full, then the cap |
| `AwsCreate.LaunchesOnce` | internal/cloudvm/aws.go:211-217 | with a token any number of calls launches one instance exactly when one took effect and the token is new |
| `AwsCreate.AtMostOneExactly` | internal/cloudvm/retry.go:59-74 | whatever the cloud does, the retried launch creates at most one instance, if and only if it has a token or is tried once |
| `AwsCreate.AnsweredExactly` | internal/cloudvm/retry.go:63-74 | the launch is answered if and only if one of four attempts is, after nothing but transient failures |
| `AwsCreate.TwiceWithoutToken` | internal/cloudvm/aws.go:211-217 | a created-then-failed answer duplicates a launch without token |
| `AwsCreate.TokensDistinct` | internal/cloudvm/aws.go:374-383 | a token determines its run and its attempt |
| `AwsCreate.CreateGroup` | internal/cloudvm/aws.go:389-435 | when the group is obtained, when it is adopted, and when its deletion is requested, exactly |
| `AwsCreate.AwsProvider.Launch` | internal/cloudvm/aws.go:235-296 | at most one new instance; when it succeeds; on error, whether an instance was left and whether it was terminated, exactly |
| `AwsCreate.DeleteWhenReleased` | internal/cloudvm/aws.go:584-596 | one to 42 deletion requests for the group; it stays or is gone |
| `AwsCreate.AwsProvider.CreateVM` | internal/cloudvm/aws.go:138-296 | the counter goes up; succeeds exactly when every step does; at most one new instance, in the region asked for and with this call's token; on success the group is kept for it, on error its deletion is requested last exactly when the call knows it, and then it is gone unless the cloud refuses |
| `AwsCreate.TokenIsFresh` | internal/cloudvm/aws.go:374-383 | in every run of calls of one process each call's token is unused |
| `AwsCreate.EveryCallGetsItsOwn` | internal/cloudvm/aws.go:138-142 | so every successful call gets an instance launched for it, never an earlier one |
| `FirecrackerNet.BlocksDisjoint` | internal/cloudvm/firecracker_net.go:14-35 | octets in range, block i is addresses 4i to 4i+3, two blocks share none |
| `FirecrackerNet.CidrInjective` | internal/cloudvm/firecracker_net.go:30-35 | different blocks have different CIDR texts |
| `FirecrackerNet.IpInjective` | internal/cloudvm/firecracker_net.go:20-28 | no two host or guest addresses of any blocks have the same text |
| `Firecracker.RecordedReadsBack` | internal/cloudvm/firecracker.go:192-203 | an allocated index reads back from its file |
| `Firecracker.UsedIndices` | internal/cloudvm/firecracker.go:169-190 | exactly the indices that the other run directories record, as far as the scan can read them |
| `Firecracker.AllocSubnetIndex` | internal/cloudvm/firecracker.go:148-167 | the first unused index of the probe order, in range; fails exactly when all 16384 are used |
| `Firecracker.LocalHost.SetupNetwork` | internal/cloudvm/firecracker.go:472-492 | host state after a setup that fails at any command |
| `Firecracker.LocalHost.Teardown` | internal/cloudvm/firecracker.go:389-414 | host state after a teardown, by the index and interface it can read or their fallbacks |
| `Firecracker.LocalHost.CreateVM` | internal/cloudvm/firecracker.go:261-365 | host state and result of a creation that fails at any step, or whose scan cannot read other runs' directories |
| `Firecracker.TeardownExact` | internal/cloudvm/firecracker.go:389-414 | setup stopped anywhere, then teardown, restores rules and taps if and only if the tap was new and the teardown names the added rules and no other rule of the host |
| `Firecracker.RecordedTeardownRestores` | internal/cloudvm/firecracker_net.go:88-102 | with the index recorded and readable, the interface too or still the default route, and an unshared tap and block, it does |
| `FirecrackerRuns.IdleTeardownExact` | internal/cloudvm/firecracker.go:192-203 | tearing down a run that is not live leaves all rules alone if and only if the block and interface it names are no live VM's |
| `FirecrackerRuns.DestroyExact` | internal/cloudvm/firecracker.go:389-414 | a teardown keeps the host invariant if and only if it is harmless: it names a live VM's own block and interface, or no live VM's |
| `FirecrackerRuns.CreateKeeps` | internal/cloudvm/firecracker.go:261-365 | a creation whose clearing is harmless and that completes well keeps it, whatever step fails |
| `FirecrackerRuns.CreateExact` | internal/cloudvm/firecracker.go:261-365 | a creation of a run that is not live keeps it if and only if the clearing is harmless, a success takes no live VM's block and a failure undoes its setup; or the failure happens to put back the rule that the clearing took |
| `FirecrackerRuns.RunsKeepHost` | internal/cloudvm/firecracker.go:261-414 | over every run of creates and teardowns the host has each live VM's three rules once, its tap, and otherwise what it had; with none live it is as before |
| `FirecrackerRuns.CarefulRunsKeepHost` | internal/cloudvm/firecracker.go:261-414 | the same from what a caller can see: iface files written, teardowns that read their run's files, scans that read the live VMs' directories, and no idle run named onto a live VM's block |
| `FirecrackerRuns.ProbingAvoidsRead` | internal/cloudvm/firecracker.go:148-190 | probing never lands on the block of a live VM whose directory the scan reads |
| `FirecrackerRuns.StepApartExact` | internal/cloudvm/firecracker.go:148-190 | a step keeps live VMs' blocks apart if and only if it is no creation that completes and whose first free candidate is the block of a live VM among the directories it could not read |
| `FirecrackerRuns.ApartExactly` | internal/cloudvm/firecracker.go:148-190 | so they stay apart over a whole run if and only if no creation of the run does that |
| `FirecrackerRuns.FullScansTakeFree` | internal/cloudvm/firecracker.go:169-190 | and none does in a run whose scans read the live VMs' directories |
| `FirecrackerRuns.LiveBlocksDisjoint` | internal/cloudvm/firecracker.go:148-203 | over every sequence of creates and teardowns whose scans read the live VMs' directories, whatever else fails and whatever ids collide, live VMs have disjoint blocks and their indices read back |
| `FirecrackerRuns.UnreadDirectoryShares` | internal/cloudvm/firecracker.go:175-188 | two creations, the second unable to read the first's directory, end with two live VMs on one block |
| `FirecrackerRuns.TapTakenExactly` | internal/cloudvm/firecracker.go:266-270 | a failed creation leaves a live VM without its tap if and only if the two run ids share their crc32; after a successful one the tap is the new VM's |
| `FirecrackerRuns.TwinLosesForwarding` | internal/cloudvm/firecracker.go:269-270 | and then its forwarding rules on the interface that the clearing names |
| `FirecrackerRuns.CollidingCreateCutsNat` | internal/cloudvm/firecracker.go:269-270 | a creation whose clearing names a live VM's block and interface deletes that VM's NAT rule, whatever follows |
| `Provisioning.PathsDistinct` | internal/cloudvm/adapter.go:858-875 | the four files of a run are different |
| `Provisioning.RunsShareFilesExactly` | internal/cloudvm/adapter.go:858-875 | two runs share a file if and only if they are the same or one is called like the other's public key |
| `Provisioning.CloudVmAdapter.PinHostKey` | internal/cloudvm/known_hosts.go:24-84 | leaves its file exactly on success |
| `Provisioning.CloudVmAdapter.Start` | internal/cloudvm/adapter.go:297-369 | which files exist and which are armed for removal when it stops at any step |
| `Provisioning.CloudVmAdapter.Execute` | internal/cloudvm/adapter.go:171-379 | succeeds exactly when every step does; a created VM gets exactly one destroy call on error and none on success; the handle names that VM and its files; the files after every outcome |
| `Provisioning.CloudVmAdapter.ExecuteThenCleanup` | internal/cloudvm/adapter.go:171-379 | over a run and its cleanup a created VM gets exactly one destroy call, naming it, on every path; exactly the run's four files are gone |
| `Provisioning.CloudVmAdapter.Cleanup` | internal/cloudvm/adapter.go:708-740 | one destroy call; files go only if it succeeded, a supplied identity is not among them |
| `Provisioning.RollbackExact` | internal/cloudvm/adapter.go:179-190 | a failure at any step after key generation leaves no file of the run, if and only if no wrapper was partly written |
| `Provisioning.SuccessKeepsWhatIsUsed` | internal/cloudvm/adapter.go:262-274 | on success all files in use are there, a supplied identity exactly when it is not the run's own key path |
| `Provisioning.WholeRunRemovesItsOwn` | internal/cloudvm/adapter.go:708-740 | Execute and Cleanup together remove the run's own four files and nothing else |
| `Catalog.GuardsExact` | internal/cloudvm/catalog.go:53-95 | the guard chain keeps exactly the satisfying rows, negative sizes apart |
| `Catalog.FindCheapest` | internal/cloudvm/catalog.go:51-102 | exactly the multiset of kept rows, in ascending price |
| `Catalog.FindCheapestForProvider` | internal/cloudvm/catalog.go:116-125 | the same for one provider |
| `Catalog.AscendingUnique` | internal/cloudvm/catalog.go:97-99 | two ascending lists of the same rows agree in price at every place |
| `Catalog.ProviderSearchAgrees` | internal/cloudvm/catalog.go:116-125 | a provider search agrees with a search of the provider's own catalog up to price ties |
| `Catalog.EnrichSpecs` | internal/cloudvm/pricing.go:92-115 | every element of the slice is replaced by its enriched row |
| `Catalog.EnrichKeepsPrices` | internal/cloudvm/pricing.go:85-115 | prices and identity are kept, sized rows untouched, a second pass does nothing |
| `Catalog.EnrichFills` | internal/cloudvm/pricing.go:92-115 | an unsized row takes sizes and kind of the last table row of its provider and name, and stays without one |
| `Catalog.SeedStatic` | internal/cloudvm/pricing.go:125-148 | the rows, then the table rows of missing kinds of fetched providers |
| `Catalog.SeedingIdempotent` | internal/cloudvm/pricing.go:125-148 | seeding twice is seeding once |
| `Catalog.SeedingCompletes` | internal/cloudvm/pricing.go:117-148 | afterwards a fetched provider has GPU (confidential) rows if and only if its feed or the table has, and any other provider has exactly its own rows |
| `Catalog.Merge` | internal/cloudvm/pricing.go:69-83 | the rows of the answering fetchers in order, who answered and who was skipped |
| `Catalog.LiveRowsExactly` | internal/cloudvm/pricing.go:69-83 | the live rows are the answers one after the other, each whole |
| `Catalog.AnsweringExactly` | internal/cloudvm/pricing.go:69-83 | who is answering and who is reported, exactly by the answers |
| `Catalog.LiveCatalog` | internal/cloudvm/pricing.go:34-83 | exactly the enriched live rows in order at their live prices, then the table rows of kinds that the answering providers' feeds lack; exactly the silent ones are reported |
| `Estimator.ParseCpu` | internal/cost/estimator.go:329-345 | the leading digits as a wrapped 64-bit number, 2 for none or zero |
| `Estimator.PositiveExactly` | internal/cost/estimator.go:329-345 | positive if and only if those digits do not set the sign bit |
| `Estimator.Pick` | internal/cost/estimator.go:97-111 | on the fields of the workload: a cheapest row of the provider with the vCPUs, memory, architecture, confidentiality and GPUs asked for, or nothing exactly when there is none |
| `Estimator.PickIsCheapestSatisfying` | internal/cost/estimator.go:286-308 | it meets every requirement and no cheaper row does |
| `Estimator.KnownVcpusExactly` | internal/cost/estimator.go:97-111 | no catalog yields a row of unknown vCPUs, if and only if the CPU text does not overflow |
| `Estimator.OverflowIsNegative` | internal/cost/estimator.go:329-345 | 2^63 is read as a negative number |
| `PricingCache.CachedFetcher.ReadCache` | internal/cloudvm/pricing_cache.go:79-92 | the entry, unless caching is off, the file unreadable or the list empty |
| `PricingCache.CachedFetcher.WriteCache` | internal/cloudvm/pricing_cache.go:94-125 | replaces the file as a whole or not at all, never by an empty list |
| `PricingCache.CachedFetcher.Fetch` | internal/cloudvm/pricing_cache.go:58-77 | result, live call and new file of one fetch |
| `PricingCache.AsksExactly` | internal/cloudvm/pricing_cache.go:58-62 | over every run of overlapping processes from no cache, a fetch asks the provider if and only if it cannot read the file or the entry stored last before its read is absent or at least a TTL old |
| `PricingCache.FailsExactly` | internal/cloudvm/pricing_cache.go:64-74 | over every such run, when a fetch fails, exactly; a credentials error with an expired entry always surfaces |
| `PricingCache.StoresExactly` | internal/cloudvm/pricing_cache.go:75-76 | over every run, a fetch stores exactly when it asked, got rows, caching is on and the write succeeds; the file is then that answer |
| `PricingCache.ReturnsExactly` | internal/cloudvm/pricing_cache.go:58-77 | over every run from no cache, which of live answer, stored answer and error a fetch returns |
| `PricingCache.FileIsLastStored` | internal/cloudvm/pricing_cache.go:94-125 | over every run of overlapping fetches the file is the last stored answer |
| `PricingCache.ReturnsLiveAnswers` | internal/cloudvm/pricing_cache.go:58-77 | every returned list is the live answer just obtained or a non-empty earlier one |
| `PricingCache.OnlyAnswersReplace` | internal/cloudvm/pricing_cache.go:94-99 | empty answers, failures and failed writes leave the stored entry |
| `PricingCache.ServesForTtl` | internal/cloudvm/pricing_cache.go:58-62 | a stored answer serves every fetch that reads it within the TTL, unless a fetch that overlaps the store stores another |
| `Gc.ScanRecords` | internal/cli/gc.go:109-140 | the guard spares exactly the runs some record protects |
| `Gc.Classify` | internal/cli/gc.go:169-213 | every listed resource lands in exactly one of external, standing, spared and orphan, the one it belongs to |
| `Gc.OrphansExact` | internal/cli/gc.go:179-213 | the orphans are exactly the reapable resources, as often as listed |
| `Gc.ReapableMeans` | internal/cli/gc.go:121-140 | what may be destroyed, by tag and record state |
| `Gc.ListedExactly` | internal/cli/gc.go:169-179 | every listing obtained counts whole |
| `Gc.DestroyAll` | internal/cli/gc.go:317-346 | one destroy call per orphan; key files go only with a destroyed resource |
| `Gc.Collect` | internal/cli/gc.go:244-346 | the destroy calls are exactly the reapable resources if the flags, the confirmation and the store allow it, and none otherwise; when it is refused, what it counts and whose key files go, exactly |
| `Gc.NothingReapableExactly` | internal/cli/gc.go:197-205 | nothing at all is reapable if and only if some record is unreadable beyond recovery |
| `GcRuns.ReachableInv` | internal/cli/gc.go:109-213 | in every interleaving with executors, records not saved since they were loaded are as loaded, and targets existed at the listing and are spared by no loaded record |
| `GcRuns.TargetsExactly` | internal/cli/gc.go:169-247 | which VMs the listing makes targets, the empty-store guard included |
| `GcRuns.DestroysProtectedExactly` | internal/cli/gc.go:109-346 | in every interleaving, a VM about to be destroyed existed at the listing, and its run is protected then if and only if a record became protecting after gc had read the records |
| `GcRuns.SettledRunIsSafe` | internal/run/executor.go:178-186 | no VM is destroyed whose run has a protecting record that was not saved again since gc read it |
| `GcRuns.UnreadableStopsAll` | internal/cli/gc.go:197-205 | a record that could not be read stops the whole collection |
| `GcRuns.LateRunIsDestroyed` | internal/cli/gc.go:109-171 | the run snapshot, record, create, list, destroy: a recorded, running run loses its VM |
| `GcRuns.UnsavedRunIsDestroyed` | internal/run/executor.go:64-72 | a run whose record could not be saved loses its VM to any collection |
| `GcRuns.SameRule` | internal/cli/gc.go:179-213 | the targets of these runs are what Collect destroys |

## Left out

- Attestation, provider command lines, price fetchers, billing, the executor, the CLI's texts
  and its JSON output: parsing and argument building around libraries.
- `ClassifyFailure`, policy gates, `SanitizeName`, `injectDotEnv` and cost formatting: single
  branches or copies of what is modelled; memory sizes enter `Estimator.Spec` already parsed.
- Lease: goroutine scheduling delay.  The latency bound is the 20 s timeout of the confidential
  loop's calls; the setup loop's calls have no timeout, so there the bound is an assumption.
  Removing an empty deadline file.
- LeaseSafety.SafetyExact: a renewal's write does not land after its call has returned, although a
  killed ssh client could leave the remote write to land later, over a newer deadline.
- Pipes: a grandchild that keeps the write end open, and a second Status call on one handle.
- History: torn appends and lines that do not parse; an entry is its line, with its name already
  truncated.
- Shell: expansions, double quotes and other syntax the printers do not use are rejected by
  the lexer; NUL bytes; cd's own update of PWD and OLDPWD counts as the
  directory; variables that change how the shell itself works, such as POSIXLY_CORRECT.
- Env files: docker's own trimming of carriage returns.
- Build key: SHA-256 and its cut to 12 digits; claims are about the bytes fed to it.
- AwsCreate.EveryCallGetsItsOwn: speaks of the calls of one process that have a run id or a
  name, because the counter restarts with the next process; the 64-character limit of tokens and
  the 64-bit counter's wrap are not modelled.
- AwsCreate.AwsProvider.CreateVM: a requested group deletion can still fail or be refused by
  the cloud while an instance uses the group; `adoptCreatedVM` of other providers is not modelled.
- Firecracker: concurrent creations on one host; teardown commands that themselves fail, and a run
  directory that cannot be made; other addresses of the host in 172.16.0.0/16.
- FirecrackerRuns.RunsKeepHost: assumes `FirecrackerRuns.Separate` (different taps, nothing else
  in 172.16.0.0/16) and what `FirecrackerRuns.Allowed` lists, because the claim is false without:
  `FirecrackerRuns.DestroyExact`, `FirecrackerRuns.CreateExact` and
  `FirecrackerRuns.TapTakenExactly` show it.
- Provisioning: the key files of a failed key generation; file removals that fail; the
  orchestration of confidential VMs beyond its renewal loop.
- Catalog: floating-point rounding (prices are reals), case folding beyond ASCII.
- Price cache: JSON decoding; the file name's region part.
- Gc: two collections at once; which adapter listed a resource, cost figures and scope notes.
