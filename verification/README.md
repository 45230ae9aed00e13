# Verified model of Shuriken

Shuriken is a build system. A build reads a compiled manifest (the list of build steps and what they depend on) and an
invocation log (what earlier builds did), works out which steps are dirty, and runs their commands in dependency
order. The repository also holds a reactive-streams layer over gRPC, a tracer that records the file accesses of a
command, and the utilities that both are built on. This project models the parts with the most state and the most
branching, and proves what they are there for. `dafny verify dfyconfig.toml` checks everything.

## The parts

* **Building** (`Graphs`, `Histories`, `Manifests`, `DependencyDelta`, `Scheduling`, `Construction`, `Completion`,
  `Discarding`, `CleanSteps`, `Builds`, `BuildLogs`, `Reports`, `BuildRuns`). The class `Build` holds the graph state
  that the source updates in place; the class `Session` is a build that is being run, with a command runner that may
  take commands when it likes and reports on them in any order, with any result. A ghost history records what happened
  to each step. The invariant of a build says, for every history, what every counter, flag, list and table must be.
  `BuildLogs` is about what one build writes to the log and what the next one reads from it, and `Reports` about what
  the commands of a build reported: which reports count as successes, which step each file belongs to, and which steps
  a logged run used.
* **Pools** (`Pools`). The command runner that limits how many commands of a pool run at the same time.
* **gRPC calls** (`Signals`, `ServerStreaming`, `ServerReading`, `ClientWriting`, `ClientStreaming`, `ClientReading`,
  `BidiClient`). Each call is a class. gRPC is an adversary that reports on the outstanding operation at any time,
  with any result. Producers and subscribers are adversaries too: a producer may signal whatever it likes whenever it
  likes, also from within its subscription and from within the request for an element, and a subscriber may ask for
  more or cancel from within the delivery of an element. A producer of requests may also cancel the call from there. A
  ghost flag tells whether a producer has kept to Reactive Streams so far. The client code for a stream of requests
  occurs twice in the source, in the client-streaming and the bidirectional call; `RequestWriter` stands for both.
* **Paths** (`NormalPaths`, `CanonicalPaths`). Making a path canonical in place in a buffer, against a normal form
  that is defined on components, and against the meaning of paths in a tree of directories.
* **Fingerprints** (`Fingerprints`, `DelayedLogs`, `MatchesMemos`). Telling from metadata whether a file has changed,
  the log that waits until fingerprints are certain, and the threads that check all fingerprints before a build.
* **Text** (`EditDistances`, `Quoting`). Distances between strings, and quoting for shells and for Windows programs.
  The file `Quoting.dfy` has four modules: the last one is about the lists of paths in commands.
* **Tracing** (`EventConsolidators`). What a process read, wrote and deleted, from the sequence of its file accesses.

`Files.dfy` holds what several parts share. Dafny methods that stand for exceptions of the source return an error
value. Hashes are numbers or structures without collisions. The clock, the file system, the command runner, gRPC,
producers, subscribers and thread schedules are parameters or nondeterministic choices, so that what is proved holds
for all of them.

## What turned out to be false, and when it is true

* Making a path canonical does not give the normal form of a path like `..`, of which only `..` components remain: the
  character after the last of them, which may be the terminator, is kept. `CanonicalizeString` states that it gives
  the normal form if and only if a name remains or no `..` does; `CanonicalizeUp` gives a path for which it does not.
* Absolute paths that mean the same can have different canonical forms, because `..` at the root is kept
  (`RootParentIsKept`). `SameCanonicalForm` states when two paths have the same form: exactly if they lead to the same
  place from everywhere and, if they are absolute, their routes go up from the root equally often. For relative paths
  the second part is void, and an absolute path never has the form of a relative one (`CanonicalTellsApart`,
  `AbsoluteIsNotRelative`).
* Quoting loses an empty string, for shells and on Windows, and on Windows it leaves a tab outside quotes unless there
  is also a space or a quote. The two round trip lemmas state that these are the only exceptions.
* A subscriber that asks for exactly as many elements as a stream has is not told of its end: the read that finds the
  end needs a request of its own. When nothing is being read, the end has been found if and only if fewer elements
  were delivered than asked for. If at some moment as many elements were to be read as stand for an unbounded number,
  it has always been found when nothing is being read (`ClientReading.ServerStreamingClientCall.AnyRun`,
  `BidiClient.BidiClientCall.AnyRun`, `ServerReading.ClientStreamingServerCall.AnyRun`).
* A build without any allowed failures ends with the result that there was no work to do, without having done
  anything. `BuildRuns.Session.Run` states this, and when the requested steps are all done after a build that ends
  well. The `shk` program never allows zero failures (`src/shk/src/shk.cpp`, line 599), so that this concerns other
  callers of `build`.
* The comment on `retakeFingerprint` promises an exact copy of a fingerprint that is clean without hashing the file.
  That is so if and only if the flag in it is the one that the new time gives (`RetakeFingerprint`). For an existing
  file this holds whenever the clock has not been set back since the fingerprint was taken (`RetakenLaterIsCopy`), and
  for a missing one unless the start of time lies in between (`RetakenMissingIsCopy`). `RetakeWithClockSetBack` is an
  input for which it fails.
* A path that is moved to another device can lead to a changed file that is taken for clean, because fingerprints leave
  out the device (`OtherDevice`). On the device where it was, every change is found (`MatchesAfterAnyHistory`).
* Discarding clean steps ends in an exception if two of them have the same output (`SharedOutput`). With the clean
  steps that a build computes, this is the only way in which it can fail: the outputs of all of them are known
  (`ComputeCleanSteps`), so that the internal error for unknown outputs is unreachable (`DiscardCleanSteps`,
  `PerformBuild`).
* A build waits forever for commands of pools that are not declared or have no spots. `NothingLeft` states that these
  are the only ones.

## Model

| member | source | states |
|---|---|---|
| `Manifests.ComputeIndices` | src/shk/src/build.cpp:375-379 | The loop over the steps computes the map from hashes to indices, which `IndexMapSound` and `IndexMapInverts` are about. |
| `Manifests.IndexMapSound` | src/shk/src/build.cpp:375-379 | The map sends a hash to a step that has that hash. |
| `Manifests.IndexMapInverts` | src/shk/src/build.cpp:375-379 | With distinct hashes, looking up the hash of a step finds that step. |
| `Manifests.BinarySearch` | src/shk/src/build.cpp:218-232 | Binary search in a sorted list decides membership. |
| `Manifests.StepIsIgnored` | src/shk/src/build.cpp:218-232 | A dependency is ignored exactly if the log entry of the step lists it; without an entry none is. |
| `DependencyDelta.UsedDependencies` | src/shk/src/build.cpp:140-164 | The result is the strictly sorted list of exactly those steps that own one of the input files. |
| `DependencyDelta.IgnoredAndAdditionalDependencies` | src/shk/src/build.cpp:166-204 | One pass over two sorted lists gives the declared dependencies that were not used, and the sorted hashes of the used ones that are not declared. |
| `DependencyDelta.DeltaWellFormed` | src/shk/src/build.cpp:166-204 | Both lists are sorted as the log format requires, and the ignored ones are exactly those declared and not used. |
| `DependencyDelta.DecodeDelta` | src/shk/src/build.cpp:340-362 | Decoding the logged hashes finds exactly the used steps that the manifest does not declare. |
| `DependencyDelta.DeltaRoundTrip` | src/shk/src/build.cpp:166-204 | Writing the delta of a run to the log and reading it back gives the dependencies that the run used. |
| `Scheduling.ComputeReadySteps` | src/shk/src/build.cpp:286-296 | The ready list is exactly the steps to build whose dependency counter is zero, each once. |
| `Construction.FinishVisiting` | src/shk/src/build.cpp:301-365 | Closing a step whose dependencies have all been visited keeps the invariant of the search, with the step appended to a topological order. |
| `Construction.OrderIsShouldBuild` | src/shk/src/build.cpp:301-365 | After the search, the steps marked to be built are exactly those in the order found. |
| `Construction.TransposedAfter` | src/shk/src/build.cpp:301-365 | After the search, the lists of dependents are the transpose of the dependency lists, with multiplicity. |
| `Construction.ConsistentAfter` | src/shk/src/build.cpp:367-393 | The state after construction satisfies the invariant of a build in which nothing has happened. |
| `Builds.Build.constructor` | src/shk/src/build.cpp:367-393 | A build starts with fresh nodes, and no step is ordered. |
| `Builds.Build.VisitStep` | src/shk/src/build.cpp:301-365 | The search terminates, succeeds with the step ordered after everything it depends on, or fails with a cycle reachable from the step. |
| `Builds.Build.VisitDependencies` | src/shk/src/build.cpp:335-338 | Declared dependencies are visited and counted one by one. |
| `Builds.Build.VisitAdditional` | src/shk/src/build.cpp:340-362 | Logged dependencies are visited and counted; a hash that is not in the manifest clears the flag that no dependency was built. |
| `Builds.Build.Construct` | src/shk/src/build.cpp:367-393 | Construction fails if and only if a cycle is reachable from the requested steps; otherwise exactly the reachable steps are to be built and the invariant holds. |
| `Builds.Build.AddOutputFiles` | src/shk/src/build.cpp:234-248 | Output files are entered for the step, and this fails if and only if one of them has been entered before. |
| `Builds.Build.ServeDependents` | src/shk/src/build.cpp:249-278 | Each dependent loses one pending dependency per occurrence, its flag is cleared exactly for built dependencies that it does not ignore, newly ready steps are appended once, and the assertion never fails. |
| `Builds.Build.MarkStepNodeAsDone` | src/shk/src/build.cpp:234-278 | Marking a step as done keeps the invariant for the history extended by that event; it fails exactly on an output that is already owned. |
| `Completion.ConsistentServed` | src/shk/src/build.cpp:249-278 | When the dependents have been served, counters, flags, ready list and transpose are right for the longer history. |
| `Discarding.OutputFileIdsForBuildStep` | src/shk/src/build.cpp:92-138 | The file ids of the logged outputs of a step are those that the memo has for them, in order. A phony or generator step has none; for another step they are known exactly if it has a log entry and the memo has all of its outputs. |
| `Discarding.DiscardedExactly` | src/shk/src/build.cpp:395-441 | When no discardable step is left in the ready list, the discarded steps are those that are clean or phony with everything they transitively depend on. |
| `CleanSteps.NonGeneratorStepIsClean` | src/shk/src/build.cpp:528-573 | A step that is no generator is clean exactly if it was logged and all of its logged files are clean, and is logged again exactly if moreover one of them was hashed. |
| `CleanSteps.ComputeCleanSteps` | src/shk/src/build.cpp:647-673 | The clean steps among those to build, of which all outputs are known. |
| `CleanSteps.RecordableIfNoClash` | src/shk/src/build.cpp:92-138 | With known outputs, a set of clean and phony steps can be recorded exactly if no output is written twice. |
| `CleanSteps.SharedOutput` | src/shk/src/build.cpp:238-247 | Two clean steps with the same output, which cannot both be recorded. |
| `Builds.Build.DiscardStep` | src/shk/src/build.cpp:395-441 | Discarding one step is possible if its outputs can be recorded, and otherwise shows that the discard set cannot be recorded. |
| `Builds.Build.DiscardCleanSteps` | src/shk/src/build.cpp:395-441 | Succeeds if and only if the outputs of the discard set can be recorded; then exactly that set is removed, each of its outputs is recorded for its step, the number of its steps that are not phony is returned, and the ready steps are exactly the others whose dependencies were all removed. With known outputs it fails exactly if an output is written twice. |
| `Builds.Build.LoggedFlag` | src/shk/src/build.cpp:249-270 | In a build after one that logged a run of a step, its flag is cleared exactly if one of the steps that the run used has been built rather than skipped. |
| `Histories.DoneIsClosed` | src/shk/src/build.cpp:249-278 | Everything that a done step depends on is done. |
| `Histories.LaunchedOnceAfterDependencies` | src/shk/src/build.cpp:955-1012 | In every legal history, a step is launched only after its dependencies are done, and once. |
| `BuildRuns.Session.CanSkipBuildCommand` | src/shk/src/build.cpp:898-953 | A command is skipped exactly if its step was clean and either the flag says that no dependency was built, or the step was logged and each of its input files was not written in this build or written with what it had before. |
| `BuildRuns.Session.CommandBypassed` | src/shk/src/build.cpp:742-762 | A bypassed step is done without being built, and the outputs that the log has for it belong to it in addition to what was in the table. On an error the history is left as it was, and there is a step whose outputs are unknown or clash with those of done steps. |
| `BuildRuns.Session.EnqueueBuildCommand` | src/shk/src/build.cpp:955-1012 | Launches the step at the end of the ready list within the failure budget, skipping its command exactly if that is possible with the files on disk, or reports that none may be launched and why. |
| `BuildRuns.Session.EnqueueBuildCommands` | src/shk/src/build.cpp:1015-1017 | Launches until nothing is ready, the runner is busy or the failure budget is used up. |
| `BuildRuns.Session.NoteWrittenFiles` | src/shk/src/build.cpp:785-809 | Accessible outputs are noted, and a file that was written before is found out. |
| `BuildRuns.Session.MakeRecord` | src/shk/src/build.cpp:832-859 | The record of a run is the delta between the manifest and exactly the steps whose outputs the run read. |
| `BuildRuns.Session.CommandSucceeded` | src/shk/src/build.cpp:831-863 | A successful step is done and built, every output that its command reported belongs to it in addition to what was in the table, and its run is logged with exactly the steps whose outputs it read, unless it is phony or uses the console. On an error the history is left as it was, and one of the outputs belongs to another step or is listed twice. |
| `BuildRuns.Session.CommandFailed` | src/shk/src/build.cpp:865-875 | A failure uses up one of the allowed failures, leaves dependents waiting, and leaves the table of outputs as it was. |
| `BuildRuns.Session.CommandDone` | src/shk/src/build.cpp:764-875 | A report is counted as a success exactly if the exit status is and no output was written before; then the reported outputs belong to the step and what is logged is derived from the reported inputs, and otherwise nothing is logged. Afterwards only launches happen. |
| `BuildRuns.Session.RunCommands` | src/shk/src/build.cpp:1114-1128 | The loop terminates for every order of reports. Without an exception it is interrupted exactly if commands are still running, and otherwise nothing is ready unless the budget is used up. |
| `BuildRuns.NothingStranded` | src/shk/src/build.cpp:1114-1128 | When nothing is ready and nothing runs, a step is done if and only if no failed step is among it and its transitive dependencies. |
| `BuildRuns.Session.Run` | src/shk/src/build.cpp:1062-1129 | In every run, steps are launched once and after their dependencies, within the failure budget. The result says that the run was interrupted exactly if the runner says so while commands are running; otherwise, without an exception, it is failure exactly if a step failed, and no work exactly if none did and the turn came for phony steps only. Without an interruption or error the done steps are exactly those unaffected by failures, success means that everything requested is done exactly if a failure was allowed or everything was done before, and without any allowed failure nothing is done. |
| `BuildRuns.RunAgainOnlyAfterUsed` | src/shk/src/build.cpp:898-953 | A logged step that is clean is run in a later build only after a step that the logged run used was really built. |
| `BuildLogs.LoggedAppend` | src/shk/src/build.cpp:832-862 | A record is written once for a step, and everything that its run used was done before the step; this also holds for the log if marking the step as done then fails. |
| `BuildLogs.ReplayLogged` | src/shk/src/build.cpp:851-858 | After the records of a build are added to the log, a logged step has the entry of its record. |
| `BuildLogs.LoggedDependencies` | src/shk/src/build.cpp:335-362 | In the next build, a logged step depends only on what the manifest says and on what its logged run used. |
| `BuildLogs.CompletionsTopological` | src/shk/src/build.cpp:335-362 | The order in which steps completed is a topological order of the next graph. |
| `BuildLogs.LogKeepsAcyclic` | src/shk/src/build.cpp:307-312 | If the graph of a build has no cycle, then neither has the graph of the next build of the manifest, whatever the build did and logged. |
| `Reports.FreshIsAccepted` | src/shk/src/build.cpp:796-809 | Checking a report against the noted files accepts it exactly if the command was successful and wrote no file twice and none that any earlier report has. |
| `Reports.TableStart` | src/shk/src/build.cpp:423-432 | After clean steps are discarded, the table has exactly their logged outputs, each for its step. |
| `Reports.AccountsBypassed` | src/shk/src/build.cpp:756-761 | When the logged outputs of a skipped step have been entered, the table has exactly the outputs of the done steps, reported ones for built steps and logged ones for the others. |
| `Reports.AccountsSucceeded` | src/shk/src/build.cpp:785-863 | When the reported outputs of a successful command have been entered, the table, the noted files with their hashes and the verdicts on all reports are right for the longer history. |
| `Reports.AccountsFailed` | src/shk/src/build.cpp:785-871 | The same after a failure, whose files count as written but belong to no step. |
| `Reports.DerivedNext` | src/shk/src/build.cpp:842-858 | The steps that a logged run used are exactly those that were done before it and of which it read an output, also if marking the step as done then fails. |
| `Reports.SuccessObstructed` | src/shk/src/build.cpp:238-247 | If the outputs of a successful command cannot be entered, one of them is an output of a done step or is listed twice. |
| `BuildRuns.RunAgainInNextBuild` | src/shk/src/build.cpp:898-953 | Of two builds, of which the second reads the log of the first or as much of it as was written, the second runs a clean step that was logged only after a step of which the logged run read an output was really built in the second. |
| `BuildRuns.PerformBuild` | src/shk/src/build.cpp:1062-1129 | A whole build reports a cycle if and only if one is reachable. Otherwise, also when it ends in an exception, its history is legal, within the failure budget and justified, reports were accepted rightly, and its log is right: the logged uses are the steps whose outputs a run read. It throws if the clean steps cannot be discarded, and later only if the outputs of a step clash or are unknown; otherwise it was interrupted exactly if commands are running, failed exactly if a step failed, and had no work exactly if only phony steps came up. When it ends well it has done exactly the requested steps, and when failures are left over exactly those that no failure affects. With known outputs of clean steps, the internal error for unknown outputs is unreachable. |
| `BuildRuns.BuildRepeatedly` | src/shk/src/build.cpp:307-312 | Over any sequence of builds of a manifest without a cycle, each of which reads exactly what the ones before have logged, also if they were killed after a part of that was written, each build is as planned and the cycle error is unreachable. |
| `Pools.PooledCommandRunner.Invoke` | src/shk/src/cmd/pooled_command_runner.cpp:30-40 | A command is started exactly if it needs no pool or fewer commands of its pool are running than the pool has spots, and waits otherwise; the invariant of spots, order and counts is kept. |
| `Pools.PooledCommandRunner.ReturnSpot` | src/shk/src/cmd/pooled_command_runner.cpp:89-95 | A returned spot goes to the command that has waited longest, if one waits. |
| `Pools.PooledCommandRunner.Finish` | src/shk/src/cmd/pooled_command_runner.cpp:89-95 | A finished command returns its spot, and the invariant is kept. |
| `Pools.PooledCommandRunner.Replay` | src/shk/src/cmd/pooled_command_runner.cpp:30-109 | In every history of invocations and reports, free spots and running commands of a pool add up to its depth, waiting commands mean no free spot, order is kept, and size counts what was invoked and has not finished. |
| `Pools.PooledCommandRunner.NothingStranded` | src/shk/src/cmd/pooled_command_runner.cpp:71-109 | When the inner runner is idle, commands wait only in pools that are not declared or have no spots. |
| `Pools.PooledCommandRunner.NothingLeft` | src/shk/src/cmd/pooled_command_runner.cpp:42-44 | With an idle inner runner, the size for which the build waits to become zero is zero if and only if every invoked command has no pool or a declared one with spots. |
| `Pools.PooledCommandRunner.DepthRespected` | src/shk/src/cmd/pooled_command_runner.cpp:81-109 | No more commands of a pool run at a time than it has spots. |
| `Pools.PooledCommandRunner.StartedFirst` | src/shk/src/cmd/pooled_command_runner.cpp:61-79 | The commands of a pool are started in the order in which they were invoked. |
| `ServerStreaming.ServerStreamingCall.OnNext` | src/rs-grpc/include/rs-grpc/server.h:281-290 | Accepts an element from any producer. The backpressure branch is reached only if the producer broke the protocol; then the waiting element is dropped, and the stream is to be finished with that error. |
| `ServerStreaming.ServerStreamingCall.RunEnqueuedOperation` | src/rs-grpc/include/rs-grpc/server.h:393-407 | Writes the waiting element, or else finishes, only when nothing is in flight; the producer is asked for one more, and may signal within. |
| `ServerStreaming.ServerStreamingCall.Subscribe` | src/rs-grpc/include/rs-grpc/server.h:338-340 | The producer may signal while it is being subscribed to; one that keeps to the protocol can only end then. |
| `ServerStreaming.ServerStreamingCall.TagOperationDone` | src/rs-grpc/include/rs-grpc/server.h:305-358 | The first report leads to the subscription and the request for an element, a report that a write has succeeded to the next operation that waits, and a failure to nothing more. |
| `ServerStreaming.ServerStreamingCall.AnyRun` | src/rs-grpc/include/rs-grpc/server.h:281-407 | In every run with a well-behaved producer, elements are written in order and once with at most one waiting, the producer is always asked for exactly one more than was written, and the stream is finished once, after all of them, with the status of the producer. When no operation is in flight and the call is not over, all elements are written and the producer has not ended. |
| `ServerReading.ClientStreamingServerCall.Request` | src/rs-grpc/include/rs-grpc/server.h:486-489 | Demand is added up to the unbounded count, and a read is started if none is in flight. |
| `ServerReading.ClientStreamingServerCall.MaybeReadNext` | src/rs-grpc/include/rs-grpc/server.h:604-610 | A read is started exactly when there is demand and the call waits for it. |
| `ServerReading.ClientStreamingServerCall.TrySendResponse` | src/rs-grpc/include/rs-grpc/server.h:612-627 | The reply is sent exactly when the handler has finished and the stream has ended. It is the error of the handler if there is one, also after responses, else the response if there is exactly one, and else the message for none or for several. |
| `ServerReading.ClientStreamingServerCall.TagOperationDone` | src/rs-grpc/include/rs-grpc/server.h:496-537 | Requests are delivered one by one until the end is reported; the two aborts are unreachable. |
| `ServerReading.ClientStreamingServerCall.AnyRun` | src/rs-grpc/include/rs-grpc/server.h:470-627 | In every run with any handler, no more requests are delivered than were asked for; when nothing is being read, the end has been found exactly if fewer were, and always after an unbounded request. One reply is sent, exactly when the stream has ended and the handler has finished, and is the right one. |
| `ClientWriting.RequestWriter.Subscribe` | src/rs-grpc/include/rs-grpc/client.h:319-322 | The producer may signal while it is being subscribed to, before the first request for an element. |
| `ClientWriting.RequestWriter.OnNext` | src/rs-grpc/include/rs-grpc/client.h:332-340 | Accepts a request from any producer. The backpressure branch is reached only if the producer broke the protocol; then the writing is to end with that error. |
| `ClientWriting.RequestWriter.OnError` | src/rs-grpc/include/rs-grpc/client.h:342-347 | Remembers the error and ends the writing. |
| `ClientWriting.RequestWriter.OnComplete` | src/rs-grpc/include/rs-grpc/client.h:349-352 | Ends the writing. |
| `ClientWriting.RequestWriter.RunEnqueuedOperation` | src/rs-grpc/include/rs-grpc/client.h:380-401 | One operation at a time: writes, then the end of writing, then the request for the status, also when a request for an element makes the producer signal at once. |
| `ClientWriting.RequestWriter.TagOperationDone` | src/rs-grpc/include/rs-grpc/client.h:355-377 | Tells the final report from a success and from a shutdown of the run loop, and goes on after a success. |
| `ClientStreaming.ClientStreamingClientCall.Request` | src/rs-grpc/include/rs-grpc/client.h:312-324 | The first request for an element makes the call, once. |
| `ClientStreaming.ClientStreamingClientCall.TagOperationDone` | src/rs-grpc/include/rs-grpc/client.h:355-377 | Which signal the subscriber gets at the end, for every combination of cancellation, error of the request stream, shutdown and status. |
| `ClientStreaming.ClientStreamingClientCall.HandleUnaryResponse` | src/rs-grpc/include/rs-grpc/client.h:36-51 | The response is delivered exactly with the status that all went well. |
| `ClientStreaming.ClientStreamingClientCall.AnyRun` | src/rs-grpc/include/rs-grpc/client.h:312-401 | In every run there is at most one response and one terminal signal, and with a well-behaved producer it is a success only if all requests were written in order. When no operation is in flight and the call is neither done nor cancelled, all requests are written and the producer has not ended. |
| `ClientReading.ServerStreamingClientCall.Request` | src/rs-grpc/include/rs-grpc/client.h:165-181 | Demand is added unless the call is cancelled, the first makes the call, and a read is started if one is waited for. |
| `ClientReading.ServerStreamingClientCall.MaybeReadNext` | src/rs-grpc/include/rs-grpc/client.h:235-249 | A read is started exactly if there is demand. |
| `ClientReading.ServerStreamingClientCall.TagOperationDone` | src/rs-grpc/include/rs-grpc/client.h:189-223 | Responses are delivered one by one, the end leads to the status, and the status to the terminal signal; the logic error is unreachable. |
| `ClientReading.ServerStreamingClientCall.AnyRun` | src/rs-grpc/include/rs-grpc/client.h:165-249 | In every run, also with requests from within a delivery, no more is delivered than was asked for, nothing follows the terminal signal, and a call that is not over and has nothing in flight waits for demand. When nothing is in flight, the end has been found exactly if less was delivered than asked for, and always after an unbounded request. |
| `BidiClient.BidiClientCall.ReaderRequest` | src/rs-grpc/include/rs-grpc/client.h:456-465 | Demand is added up to the unbounded count, and a read is started if one is waited for. |
| `BidiClient.BidiClientCall.Request` | src/rs-grpc/include/rs-grpc/client.h:575-594 | The first request makes the call and asks the producer for an element; requests after a cancellation have no effect. |
| `BidiClient.BidiClientCall.TryShutdown` | src/rs-grpc/include/rs-grpc/client.h:655-659 | There is a terminal signal exactly if both directions are done and the call is not cancelled. |
| `BidiClient.BidiClientCall.TagOperationDone` | src/rs-grpc/include/rs-grpc/client.h:603-618 | The writer is done after the final report or a shutdown of the run loop, which cancels the call. |
| `BidiClient.BidiClientCall.AlternateTagOperationDone` | src/rs-grpc/include/rs-grpc/client.h:493-503 | A response is delivered exactly if the read succeeded and the request stream has no error; otherwise the reader is done. |
| `BidiClient.BidiClientCall.AnyRun` | src/rs-grpc/include/rs-grpc/client.h:441-659 | In every run no more is delivered than was asked for; when nothing is being read, the end of the responses has been found exactly if fewer were, and always after an unbounded request. The call ends at most once and only when both directions are done, nothing follows that, and with a well-behaved producer success means that all requests were written; when the writer has nothing in flight and the call is neither done nor cancelled, all requests are written and the producer has not ended. |
| `NormalPaths.CanonicalMeansTheSame` | src/shk-util/src/path_operations.cpp:56-133 | In every tree without symbolic links, if a path leads somewhere, its canonical form leads to the same place. |
| `NormalPaths.CanonicalIsIdempotent` | src/shk-util/src/path_operations.cpp:56-133 | The canonical form of a canonical form is itself. |
| `NormalPaths.RouteOfCanonical` | src/shk-util/src/path_operations.cpp:56-133 | Canonical form keeps the route and whether the path is absolute, and has room for its components if the path had. |
| `NormalPaths.CanonicalTellsApart` | src/shk-util/src/path_operations.cpp:56-133 | Relative paths with different canonical forms lead to different places from some directory. |
| `NormalPaths.ResolveAbsolute` | src/shk-util/src/path_operations.cpp:96-108 | An absolute path leads to its names, however often it goes up from the root. |
| `NormalPaths.AbsoluteIsNotRelative` | src/shk-util/src/path_operations.cpp:56-133 | An absolute and a relative path lead to different places from some directory. |
| `NormalPaths.SameCanonicalForm` | src/shk-util/src/path_operations.cpp:56-133 | Two paths have the same canonical form if and only if they lead to the same place from everywhere and, if absolute, go up from the root equally often. |
| `NormalPaths.RootParentIsKept` | src/shk-util/src/path_operations.cpp:96-108 | Two absolute paths that lead to the same place in every tree and have different canonical forms. |
| `NormalPaths.SplitRender` | src/shk-util/src/path_operations.cpp:56-133 | Splitting the text of a route gives its components back. |
| `CanonicalPaths.CopyName` | src/shk-util/src/path_operations.cpp:122-125 | A name is copied towards the start of the buffer with the character after it, although source and target may overlap. |
| `CanonicalPaths.ScanUp` | src/shk-util/src/path_operations.cpp:96-108 | Going up drops the last name if there is one, and is kept otherwise. |
| `CanonicalPaths.ScanName` | src/shk-util/src/path_operations.cpp:116-125 | A name is appended to the result, and where it starts is remembered. |
| `CanonicalPaths.Scan` | src/shk-util/src/path_operations.cpp:90-126 | The loop ends with the layout of the route of the path at the start of the buffer, and fails if and only if a name had no room. |
| `CanonicalPaths.CanonicalizePath` | src/shk-util/src/path_operations.cpp:56-133 | In place, with nothing changed from the terminator on: gives up if and only if more than 62 names are on the stack at some point, and otherwise leaves the normal form, followed by a separator or the terminator if only parent components remain. |
| `CanonicalPaths.CanonicalizeString` | src/shk-util/src/path_operations.cpp:43-54 | The result is the canonical form if and only if a name or no parent component remains, and otherwise that with a separator or the terminator after it. |
| `CanonicalPaths.CanonicalizeUp` | src/shk-util/src/path_operations.cpp:96-132 | For the parent directory the result has one character more than the canonical form. |
| `Fingerprints.NormalizedMode` | src/shk/src/fs/fingerprint.cpp:150-174 | Normalised modes are never zero, keep file type and set-id bits, have the permissions 0755 or 0644, and are equal exactly if type, set-id bits and executability are. |
| `Fingerprints.HashedTypes` | src/shk/src/fs/fingerprint.cpp:129-137 | Exactly directories, regular files and symbolic links are hashed, by their own mode and by the normalised one. |
| `Fingerprints.TakeFingerprint` | src/shk/src/fs/fingerprint.cpp:229-243 | Fills in the metadata, the flag and the hash of a file, or of a missing one. |
| `Fingerprints.TakenMissing` | src/shk/src/fs/fingerprint.cpp:176-178 | The mode in a fingerprint is zero exactly if there was no file, which then has no metadata and no hash. |
| `Fingerprints.CompareFingerprint` | src/shk/src/fs/fingerprint.cpp:41-85 | Decides if a file is clean, and hashes it exactly if the metadata neither proves nor refutes that. |
| `Fingerprints.ExaminedId` | src/shk/src/fs/fingerprint.cpp:51-51 | The file id of a path is that of the inode it leads to, is missing exactly if there is none, and tells files apart. |
| `Fingerprints.RetakeFingerprint` | src/shk/src/fs/fingerprint.cpp:245-276 | For an honest old fingerprint and any later file, also a missing one, gives what taking a fingerprint gives; for an unchanged one it is a copy exactly if the flag is right for the new time. |
| `Fingerprints.RetakenLaterIsCopy` | src/shk/src/fs/fingerprint.cpp:261-272 | The flag is right for every later time, if the file exists. |
| `Fingerprints.RetakenMissingIsCopy` | src/shk/src/fs/fingerprint.cpp:261-272 | For a missing file the flag is right exactly if both times are on the same side of the start of time. |
| `Fingerprints.RetakeWithClockSetBack` | src/shk/src/fs/fingerprint.cpp:261-272 | An unchanged fingerprint that is not copied, because it was taken at a later time. |
| `Fingerprints.CleanMeansSame` | src/shk/src/fs/fingerprint.cpp:41-85 | If metadata does not deceive, a fingerprint is clean if and only if size, type, set-id bits and executability are what they were, and for directories, regular files and symbolic links the content. |
| `Fingerprints.HistoriesAreNotDeceptive` | src/shk/src/fs/fingerprint.cpp:54-60 | After every history of writes, creations, links, renames and reuse of inodes that stamps content changes and leaves the path on its device, metadata older than the fingerprint does not deceive. |
| `Fingerprints.MatchesAfterAnyHistory` | src/shk/src/fs/fingerprint.cpp:278-296 | After every history that leaves the path on its device, a file is clean if and only if it looks as it did when the fingerprint was taken. |
| `Fingerprints.OtherDevice` | src/shk/src/fs/fingerprint.cpp:150-174 | A history that moves a path to another device, after which a changed file is taken for clean. |
| `Fingerprints.WithoutFlag` | src/shk/src/fs/fingerprint.cpp:91-93 | Without the flag there is a history in which a changed file is taken for clean. |
| `DelayedLogs.DelayedInvocationLog.RanCommand` | src/shk/src/log/delayed_invocation_log.cpp:59-81 | Older entries are written, and the new one waits. |
| `DelayedLogs.DelayedInvocationLog.CleanedCommand` | src/shk/src/log/delayed_invocation_log.cpp:83-93 | Older entries are written, and the new one waits. |
| `DelayedLogs.DelayedInvocationLog.WriteDelayedEntries` | src/shk/src/log/delayed_invocation_log.cpp:104-136 | Exactly the entries before the first that is not strictly older are written and removed. What is written has the step, files and dependencies that were logged, and their fingerprints with the flags cleared. |
| `DelayedLogs.DelayedInvocationLog.Close` | src/shk/src/log/delayed_invocation_log.cpp:35-41 | Everything is written, with nothing changed but the flags, if and only if no entry was logged at the end of time. |
| `DelayedLogs.SettledIsRetaken` | src/shk/src/log/delayed_invocation_log.cpp:111-123 | What is written for a call that was logged before has the fingerprints that would be taken of the files, or of missing ones, at the time of writing, if they were not modified after the call. |
| `DelayedLogs.DelayedInvocationLog.AnyRun` | src/shk/src/log/delayed_invocation_log.cpp:59-136 | For every clock, what is written followed by what waits is what was logged, in order. What is written was logged before and differs only in the flags of the fingerprints, which are then those that would be taken of the unmodified files at the time of writing. |
| `DelayedLogs.SettledMatches` | src/shk/src/log/delayed_invocation_log.cpp:111-123 | A fingerprint whose flag was cleared when it was written is clean if and only if the file looks as it did, after every later history. |
| `MatchesMemos.Check.Step` | src/shk/src/build.cpp:612-625 | A step of a worker claims the next position or writes the result for the one it holds, and leaves less to do. |
| `MatchesMemos.Check.NoRaces` | src/shk/src/build.cpp:613-624 | No two workers hold the same position, nor the same fingerprint if none is listed twice. |
| `MatchesMemos.Check.Joined` | src/shk/src/build.cpp:626-630 | When all workers have stopped, every position was claimed once and written, and the memo is complete. |
| `MatchesMemos.ComputeFingerprintMatchesMemo` | src/shk/src/build.cpp:602-631 | For any number of threads and every schedule, the memo ends up with the result for exactly the used fingerprints. |
| `EditDistances.CheapestScript` | src/shk/src/edit_distance.cpp:21-75 | In both modes, the distance is the lowest cost of a script of edits that turns one string into the other. |
| `EditDistances.AboveToTheEnd` | src/shk/src/edit_distance.cpp:69-71 | Once a whole row is above the limit, the distance is, so that leaving early is sound. |
| `EditDistances.NextRow` | src/shk/src/edit_distance.cpp:47-67 | A row of the table is computed in place from the one before, together with its minimum. |
| `EditDistances.EditDistance` | src/shk/src/edit_distance.cpp:21-75 | Without a limit the result is the distance; with one it is the distance if that is within the limit, and above the limit otherwise; what a negative limit does is stated as well. |
| `EditDistances.SpellcheckString` | src/shk/src/edit_distance.cpp:77-94 | The result is the first of the closest words, or none if all are further than three edits away. |
| `ShellQuoting.SafeIsNotSpecial` | src/shk/src/util.cpp:58-73 | No character that is left without quotes is special to the shell. |
| `ShellQuoting.LeftAsIs` | src/shk/src/util.cpp:58-73 | Exactly the strings of letters, digits and five other characters are left as they are. |
| `ShellQuoting.GetShellEscapedString` | src/shk/src/util.cpp:99-122 | The loop over spans appends the escaped form. |
| `ShellQuoting.WordsEscaped` | src/shk/src/util.cpp:99-122 | Wherever an escaped string stands, the shell continues the current word with exactly that string. |
| `ShellQuoting.RoundTrip` | src/shk/src/util.cpp:99-122 | By sections 2.2.1 and 2.2.2 of the POSIX shell language, an escaped string is read back as that one word if and only if it is not empty. |
| `Win32Quoting.GetWin32EscapedString` | src/shk/src/util.cpp:125-158 | The loop over spans and backslashes appends the escaped form. |
| `Win32Quoting.LeftAsIs` | src/shk/src/util.cpp:75-83 | Exactly the strings without a space and without a quote are left as they are. |
| `Win32Quoting.ReadBody` | src/shk/src/util.cpp:125-158 | Between quotes, the escaped form of a string is read back as that string, whatever backslashes and quotes it has. |
| `Win32Quoting.RoundTrip` | src/shk/src/util.cpp:125-158 | By the rules of CommandLineToArgvW, an escaped string is read back as that one argument if and only if it is not empty and has no tab outside quotes. |
| `PathLists.MakePathList` | src/shk/src/manifest/eval_env.cpp:117-137 | The loop builds the list of paths, with either escape or none, with separators in between. |
| `PathLists.ShellListRoundTrip` | src/shk/src/manifest/eval_env.cpp:117-137 | The shell reads an escaped list with spaces back as the paths that are not empty, in order, so as that list if and only if none is empty. |
| `PathLists.Win32ListRoundTrip` | src/shk/src/manifest/eval_env.cpp:117-137 | A Windows program reads an escaped list with spaces back as that list if and only if no path is empty and none has a tab outside quotes. |
| `EventConsolidators.VerdictsAreLocal` | src/shk-trace/src/event_consolidator.cpp:19-77 | The verdict on a path depends on the events of that path only. |
| `EventConsolidators.InputsAreNotOutputs` | src/shk-trace/src/event_consolidator.cpp:19-77 | No path is both an input and an output. |
| `EventConsolidators.EventConsolidator.OnEvent` | src/shk-trace/src/event_consolidator.cpp:19-77 | After every history, the sets are exactly the paths that were last made and not deleted, that were read while not an output and not made later, and that were deleted while not an output and not created later. |
| `EventConsolidators.EventConsolidator.GenerateTrace` | src/shk-trace/src/event_consolidator.cpp:79-120 | The trace lists inputs and outputs once each, all errors in order, and one error for each path deleted wrongly and not an output at the end. |

## Left out

- BuildRuns.Session.CanSkipBuildCommand: no claim that a skipped command would have had no effect; an input that was
  deleted during the build counts as unwritten in the source.
- PathLists.ShellListRoundTrip: only for lists separated by spaces; a newline ends a command of the shell.
- ClientWriting.RequestWriter.ProducerSignals: a producer that asks the call for more responses from within its own
  request is not modelled; that concerns only the reading half, on which the writing half does not depend.
- DelayedLogs.DelayedInvocationLog.Close: does not claim that cleared flags are right, because the destructor pretends
  that time is at its end.
- MatchesMemos.ComputeFingerprintMatchesMemo: the file system does not change while the threads check it, and the
  cursor does not overflow.
- Fingerprints.TakeFingerprint: the metadata and the content of a file are read at the same moment; errors while
  reading a file are not modelled.
- Comparing the file times of generator steps, what is written when an entry is logged again, deleting old outputs,
  creating directories, response and dependency files: file access with little logic of its own.
- The global limit on running commands, dry runs and status output: thin layers over the command runner.
- Calls with a single request and a single response, and the server side of bidirectional calls: they repeat the
  halves that are modelled.
- The operators of the reactive streams library: most are thin, and the ones that merge and zip do not keep to the
  demand.
- The store service: inserting fails on the first message, so that there is nothing to read back.
- The manifest parser and the format of the persistent log: log entries and steps are given.
- Splitting a path into directory and base name, and resolving paths with symbolic links.
- Memory management, weak references and type erasure in the gRPC layer.
- The widths of `int` and `size_t`, except for element counts, which saturate; negative element counts.
- The Windows branch of making a path canonical, and the other spellings of a quote that newer Windows programs
  accept.
- Directory events of the delayed log, which are forwarded at once.
