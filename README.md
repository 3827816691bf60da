# SyncBot in Dafny

SyncBot syncs a Perforce workspace in parallel. `SyncWorker.Sync(path)` has two phases:

- **Gather.** It runs a dry-run `p4 sync -n path`. Each record it gets back becomes a work item: a `DepotFile` with a name, a size and a changelist. Every diagnostic message that says a file "must resolve" adds one more item. Then it raises `Gathered(count, size)`.
- **Drain.** It starts `min(numThreads, count)` workers. Each worker opens its own connection, then dequeues items from the shared queue until the queue is empty. For each item it raises `Syncing`, fetches `name@change`, and raises `Synced`, or `Error` when the fetch throws.

The command-line front end reads `-u`, `-p`, `-w` and `-s` options and a `//` path. If any of the five values is missing, it prints a usage line. Otherwise it runs one sync and prints a line for each `Gathered`, `Syncing` and `Error` event as it is raised, then "Finished.". No handler is attached to `Synced`, so it prints nothing.

The model has these files:

- `results.dfy`: `Option` and `Result`.
- `text.dfy`: the .NET string and number operations the code relies on, and one that only the model uses:
  - ordinal `IndexOf`, `Contains`, `StartsWith` and `Remove`;
  - `long` formatting and `long.Parse`, with their round trip.
  - `LastIndexOf`, which only the assumed service reader `ParseSyncArgs` uses (see "Left out").
- `sync_model.dfy`: the values of SyncBot.Core/SyncBot.cs and the functions that specify its two phases.
  - `Gather` is what the try block of `GatherFiles` makes of a dry-run result. Every failure path is kept.
  - `PoolRun` is what `SyncFiles` does for a given queue.
  - `SessionRun` is `Sync` as a whole.
- `sync_worker.dfy`: the class `SyncWorker`, with the queue, the credentials and the thread count as fields.
  - `GatherFiles`, `SyncFiles` and `Sync` are imperative methods, proved against the functions above.
  - Events are appended to a `trace` field.
  - The worker threads become a sequential interleaving. At each step, some connected worker, chosen nondeterministically, dequeues the head of the queue.
- `sync_properties.dfy`: what the engine promises, proved about those functions:
  - the command lines;
  - the queue, count and total of the gather phase, including each failure path;
  - each item dequeued exactly once, in queue order;
  - the worker ids;
  - failure isolation;
  - phase order.
- `cli.dfy`: SyncBotCLI/Program.cs.
  - The static fields become the class `Program`.
  - `ProcessArguments` is a loop, proved against the scanner specification `Scan`.
  - `Run` is `Main`.
- `cli_properties.dfy`: the scanner's rules:
  - an option consumes the next argument;
  - the last occurrence wins;
  - other arguments are ignored;
  - a trailing option fails.

The Perforce service is a `Service` value. It says:

- whether a connection opens and logs in, for the gather phase and for each worker;
- what the dry run returns, or the message it throws;
- whether the `k`-th real fetch, with the arguments `GetSyncArgs` built, succeeds.

Three behaviours of the code that the model keeps as written:

- **Connection failures.** `CreatePerforceConnection` is called outside the try blocks (SyncBot.Core/SyncBot.cs:47 and :93). When it throws, the task that `Sync` returns faults. No `Error` event is raised, and for the gather phase no `Gathered` either. The model has these as `TaskFault`s.
- **Usage line.** When a value is missing, `Main` prints the usage line and returns normally (SyncBotCLI/Program.cs:24-25). This is `Exit.Normal` here.
- **Negative thread count.** After `SetNumThreads` with a negative count, `new Task[numTasks]` throws (SyncBot.Core/SyncBot.cs:86). This is the `NegativeWorkerCount` fault.

## Model

| member | source | states |
|---|---|---|
| `Text.IndexOf` | SyncBot.Core/SyncBot.cs:65 | the index of the first occurrence of the pattern, or -1 exactly when it does not occur |
| `Text.ContainsSpec` | SyncBot.Core/SyncBot.cs:62 | `Contains` holds exactly when the pattern occurs at some index |
| `Text.ParseLong` | SyncBot.Core/SyncBot.cs:54-57 | a parsed value lies in the `long` range, and the text starts with a sign or a digit |
| `Text.LongToStringAlphabet` | SyncBot.Core/SyncBot.cs:153 | a formatted `long` is digits after a '-' that appears exactly for negative numbers |
| `Text.StartsWith` | SyncBotCLI/Program.cs:73 | holds exactly when the string is the prefix followed by something |
| `Text.Remove` | SyncBot.Core/SyncBot.cs:65 | `Remove(start)` gives a string exactly when `start` lies between 0 and the length; otherwise it throws |
| `Text.LongToString` | SyncBot.Core/SyncBot.cs:153 | a formatted `long` is never empty, and it starts with '-' exactly when the number is negative |
| `Text.DecimalRoundTrip` | SyncBot.Core/SyncBot.cs:153 | reading back the decimal digits of a natural number gives that number |
| `Text.LongRoundTrip` | SyncBot.Core/SyncBot.cs:153 | `long.Parse` of a formatted `long` gives the same value back |
| `SyncBotModel.GetSyncArgs` | SyncBot.Core/SyncBot.cs:128-141 | one element per flag asked for, plus the path; the path is last and every element before it is "-n" or "-f" |
| `SyncBotModel.LongField` | SyncBot.Core/SyncBot.cs:54-55 | succeeds exactly when the field is present and parses, and gives a `long` |
| `SyncBotModel.ToDepotFile` | SyncBot.Core/SyncBot.cs:57 | a record becomes an item exactly when it has a `depotFile` and a parsable `fileSize`, and the item carries those and the given changelist |
| `SyncBotModel.Project` | SyncBot.Core/SyncBot.cs:57 | the projection succeeds exactly when every record is well formed, and then gives one item per record, in record order |
| `SyncBotModel.ResolvedFileNameSpec` | SyncBot.Core/SyncBot.cs:65 | the name is the text before the first " - must resolve", and there is none exactly when that text is missing (`Remove(-1)` throws) |
| `SyncBotModel.ScanResolves` | SyncBot.Core/SyncBot.cs:60-71 | the message loop adds at most one item per message, each of size 0 and pinned to the first record's changelist |
| `SyncBotModel.Gather` | SyncBot.Core/SyncBot.cs:49-77 | a dry run that throws leaves the queue empty and records a fault; a non-empty queue comes only from a dry run with records; without a fault the queue holds at least one item per record |
| `SyncBotModel.GatherEvents` | SyncBot.Core/SyncBot.cs:74-80 | an `Error` with the caught fault comes first exactly when there is one, and `Gathered` with the queue length and the total is last |
| `SyncBotModel.WorkerCount` | SyncBot.Core/SyncBot.cs:85 | the worker count is the smaller of the thread count and the queue length |
| `SyncBotModel.LiveWorkers` | SyncBot.Core/SyncBot.cs:88-93 | the workers that enter the drain loop are exactly the ids in `[0, numTasks)` whose connection opens, each once, in increasing order |
| `SyncBotModel.DrainTrace` | SyncBot.Core/SyncBot.cs:96-110 | a drain of `n` items raises exactly `2n` events |
| `SyncBotModel.PoolRun` | SyncBot.Core/SyncBot.cs:83-116 | every item is either dequeued or left, the items left are the tail of the queue, and each dequeued item raises two events |
| `SyncBotModel.SessionRun` | SyncBot.Core/SyncBot.cs:32-39 | nothing is raised exactly when the gather connection fails, and then the task faults with that failure |
| `SyncBotCore.SyncWorker.constructor` | SyncBot.Core/SyncBot.cs:14-17 | a new worker uses the processor count as its thread count and has raised no events; its queue starts as `[]` (see "Left out") |
| `SyncBotCore.SyncWorker.InitializePerforce` | SyncBot.Core/SyncBot.cs:19-25 | stores the four credentials and changes nothing else |
| `SyncBotCore.SyncWorker.SetNumThreads` | SyncBot.Core/SyncBot.cs:27-30 | sets the thread count and changes nothing else |
| `SyncBotCore.SyncWorker.Sync` | SyncBot.Core/SyncBot.cs:32-39 | the events raised, the queue left and the task outcome are one `SessionRun`: gather, then drain the gathered queue |
| `SyncBotCore.SyncWorker.GatherFiles` | SyncBot.Core/SyncBot.cs:41-81 | if the connection fails, the queue is left empty and nothing is raised; otherwise the queue becomes `Gather` of the dry run, and the events appended are the caught fault, if any, then `Gathered` |
| `SyncBotCore.SyncWorker.EnqueueResolves` | SyncBot.Core/SyncBot.cs:60-71 | the loop appends the items of `ScanResolves` to the queue and returns the fault that stopped it, if any |
| `SyncBotCore.SyncWorker.SyncFiles` | SyncBot.Core/SyncBot.cs:83-116 | the new events, the remaining queue and the outcome are one `PoolRun` of the queue it started with |
| `SyncBotCore.SyncWorker.DrainQueue` | SyncBot.Core/SyncBot.cs:96-110 | the queue is emptied, every item is taken by a connected worker, and the trace grows by the `DrainTrace` of the items in queue order |
| `SyncBotCore.SyncWorker.SyncOne` | SyncBot.Core/SyncBot.cs:96-109 | dequeues the head, runs its fetch, and appends `Syncing` then `Synced`, or `Error` with the fetch's message |
| `SyncBotCore.SyncWorker.Pick` | SyncBot.Core/SyncBot.cs:96 | the worker that wins the next `TryDequeue` is one of the connected workers |
| `SyncBotProperties.SyncArgsShape` | SyncBot.Core/SyncBot.cs:128-156 | for both overloads, "-n" appears exactly when previewing and "-f" exactly when forcing, in that order and before the last element, which is the path or `path@changelist`; the two overloads have the same length |
| `SyncBotProperties.GatherArgs` | SyncBot.Core/SyncBot.cs:51 | the dry run is `["-n", path]` |
| `SyncBotProperties.FetchArgsShape` | SyncBot.Core/SyncBot.cs:102 | a fetch is `[name@change]` |
| `SyncBotProperties.SyncArgsRoundTrip` | SyncBot.Core/SyncBot.cs:128-141 | the service reads back the flags and a path without '@' unchanged, with no revision |
| `SyncBotProperties.SyncArgsAtRoundTrip` | SyncBot.Core/SyncBot.cs:143-156 | the service reads back the flags, the path (whatever it contains) and the changelist |
| `SyncBotProperties.ResolveStops` | SyncBot.Core/SyncBot.cs:60-71 | the loop adds one item per "must resolve" message up to the first one without " - must resolve"; that message throws, and the fault names it |
| `SyncBotProperties.ResolveNames` | SyncBot.Core/SyncBot.cs:62-69 | the loop adds no more items than there are "must resolve" messages, and the `i`-th added item is named by the text before " - must resolve" in the `i`-th "must resolve" message |
| `SyncBotProperties.ResolveCount` | SyncBot.Core/SyncBot.cs:60-70 | when every "must resolve" message names its file, the loop adds exactly one item per such message and no fault |
| `SyncBotProperties.ProjectFirstFailure` | SyncBot.Core/SyncBot.cs:57 | the projection fails with the fault of the first malformed record |
| `SyncBotProperties.GatherRecordItems` | SyncBot.Core/SyncBot.cs:52-69 | with well-formed records, the queue is one item per record in record order, stamped with record 0's changelist, followed by the "must resolve" items; the total is record 0's `totalFileSize` |
| `SyncBotProperties.GatheredReport` | SyncBot.Core/SyncBot.cs:74-80 | `Gathered` is raised once and last, with the final queue length and total; the events are just that `Gathered` without a caught fault, and the fault's `Error` then `Gathered` with one |
| `SyncBotProperties.TotalIgnoresMessages` | SyncBot.Core/SyncBot.cs:54-69 | the messages never change the reported total |
| `SyncBotProperties.GatherNoRecords` | SyncBot.Core/SyncBot.cs:43-52 | with no records, the queue is empty, the messages are not read, and only `Gathered(0, 0)` is raised |
| `SyncBotProperties.GatherQueryFails` | SyncBot.Core/SyncBot.cs:49-80 | a dry run that throws gives one `Error`, then `Gathered(0, 0)` |
| `SyncBotProperties.GatherHeaderFaults` | SyncBot.Core/SyncBot.cs:54-57 | a bad `totalFileSize` gives `Error` then `Gathered(0, 0)`; a bad `change` or a malformed record after it gives `Error` then `Gathered(0, total)` |
| `SyncBotProperties.GatherDelimiterMissing` | SyncBot.Core/SyncBot.cs:60-77 | when the message loop stops on a "must resolve" message without the delimiter, the items already added stay and the events are that fault's `Error`, then `Gathered(records + added, total)` |
| `SyncBotProperties.GatherCounts` | SyncBot.Core/SyncBot.cs:52-80 | `k` records and `m` well-formed "must resolve" messages give exactly `Gathered(k + m, total)`, and every item carries record 0's changelist |
| `SyncBotProperties.DrainTraceAt` | SyncBot.Core/SyncBot.cs:96-110 | event `2k` is the `Syncing` of the `k`-th dequeued item; event `2k + 1` is its `Synced`, or its `Error` when the fetch threw |
| `SyncBotProperties.DrainTraceKinds` | SyncBot.Core/SyncBot.cs:96-110 | a drain raises no `Gathered`, and every `Syncing` and `Synced` names a worker that dequeued |
| `SyncBotProperties.PoolDequeuesEachOnce` | SyncBot.Core/SyncBot.cs:96-110 | once a worker connects, the queue is emptied and each item is dequeued exactly once, in queue order, with its `Syncing` then its outcome; an `Error` does not stop the drain |
| `SyncBotProperties.PoolWorkerIds` | SyncBot.Core/SyncBot.cs:85-93 | every worker id in the trace is in `[0, min(numThreads, count))` and belongs to a worker whose connection opened |
| `SyncBotProperties.PoolEmptyQueue` | SyncBot.Core/SyncBot.cs:85-88 | an empty queue starts no worker, raises nothing and completes |
| `SyncBotProperties.PoolSingleFailure` | SyncBot.Core/SyncBot.cs:100-109 | when only the fetch of item `k` throws, the trace has exactly one `Error`, at position `2k + 1`, and every other item is `Synced` |
| `SyncBotProperties.PoolFourThreadsTwoItems` | SyncBot.Core/SyncBot.cs:85-115 | four threads and two items start two workers, and successful fetches give two `Synced` and a completed task |
| `SyncBotProperties.PoolRaisesNoGathered` | SyncBot.Core/SyncBot.cs:83-116 | the sync phase raises no `Gathered` |
| `SyncBotProperties.GatherThenPool` | SyncBot.Core/SyncBot.cs:36-37 | the gather events followed by events without `Gathered` hold exactly one `Gathered`, and it comes before every `Syncing` and `Synced` |
| `SyncBotProperties.SessionOrder` | SyncBot.Core/SyncBot.cs:34-38 | when the gather connection opens, `Gathered` is raised once, before every `Syncing` and `Synced`; when it fails, the task faults and nothing is raised |
| `SyncBotCli.Assign` | SyncBotCLI/Program.cs:53-72 | an option sets its own value; the other options and the path keep theirs |
| `SyncBotCli.Scan` | SyncBotCLI/Program.cs:51-77 | the path after the scan is the one it started with, or a "//" argument of the command line |
| `SyncBotCli.EventLines` | SyncBotCLI/Program.cs:30-32 | an event prints at most one line, and none exactly when it is `Synced`, which has no handler |
| `SyncBotCli.Display` | SyncBotCLI/Program.cs:80-93 | the events print at most one line each, and every line is a `Gathered`, `Syncing` or `Error` line |
| `SyncBotCli.Program.constructor` | SyncBotCLI/Program.cs:12-16 | the five static fields start unset |
| `SyncBotCli.Program.ProcessArguments` | SyncBotCLI/Program.cs:49-78 | the fields end as `Scan` of the arguments says; it fails exactly where the source indexes past the end of `args` |
| `SyncBotCli.Program.Run` | SyncBotCLI/Program.cs:18-47 | the fields end as `Scan` of the arguments says; a trailing option crashes with no output; a missing value prints only the usage line; otherwise one `Sync` runs, its events are printed, a fault prints its message, and "Finished." is always last |
| `SyncBotCliProperties.ScanThenRest` | SyncBotCLI/Program.cs:51-77 | a scan that ends normally on a prefix continues on the rest from the settings it reached |
| `SyncBotCliProperties.FlagTakesNext` | SyncBotCLI/Program.cs:53-57 | an option takes the next argument as its value, even an option or a "//" path |
| `SyncBotCliProperties.IgnoredArgument` | SyncBotCLI/Program.cs:73-76 | an argument that is neither an option nor a "//" path changes nothing |
| `SyncBotCliProperties.ScanKeepsFlag` | SyncBotCLI/Program.cs:53-72 | arguments in which the scan never reads the option as an option leave its value alone; a consumed value that spells it does not count |
| `SyncBotCliProperties.ScanKeepsPath` | SyncBotCLI/Program.cs:73-76 | arguments in which the scan reads no "//" argument as a path leave the path alone; consumed values do not count |
| `SyncBotCliProperties.AbsentFlagNeverSet` | SyncBotCLI/Program.cs:51-72 | an option that does not appear among the arguments is never read as that option |
| `SyncBotCliProperties.NoDepotPathNeverSet` | SyncBotCLI/Program.cs:73-76 | arguments none of which starts with "//" never set the path |
| `SyncBotCliProperties.LastFlagWins` | SyncBotCLI/Program.cs:51-72 | the last occurrence of an option that the scan reads as an option sets its value |
| `SyncBotCliProperties.LastPathWins` | SyncBotCLI/Program.cs:51-77 | the last "//" argument that the scan reads as a path sets the path |
| `SyncBotCliProperties.ConsumedArgumentIsValue` | SyncBotCLI/Program.cs:51-76 | an option's value is the next argument, whatever it spells: `-u alice -p -u` keeps user "alice", and `//a -u //b` keeps path "//a" |
| `SyncBotCliProperties.PathTakesEffect` | SyncBotCLI/Program.cs:73-76 | a "//" argument sets the path |
| `SyncBotCliProperties.TrailingFlagFails` | SyncBotCLI/Program.cs:55-56 | an option given as the last argument makes the scan fail, keeping what came before it |
| `SyncBotCliProperties.DanglingIsLast` | SyncBotCLI/Program.cs:51-72 | the scan fails only on an option that is the last argument |
| `SyncBotCliProperties.FullCommandLine` | SyncBotCLI/Program.cs:49-78 | a full command line sets all five values |
| `SyncBotCliProperties.MissingPathIsIncomplete` | SyncBotCLI/Program.cs:22-26 | when the scan reads no "//" argument as a path, the path stays unset and the check at line 22 fails; with `Program.Run`'s ensures for a scan that ends normally, `Main` then prints only the usage line |
| `SyncBotCliProperties.DisplayAppend` | SyncBotCLI/Program.cs:30-32 | the console shows the events in the order they were raised |

## Left out

- **The Perforce API** (`P4Connection`, `Connect`, `Login`, `Run`). It is a foreign library, so the `Service` value stands in for it. `ParseSyncArgs` is an assumed reading of a command line by the service. It is only there to state the round trips of `GetSyncArgs`. It splits a target at its last '@' with `Text.LastIndexOf`, which the SyncBot code itself never calls.
- **Real concurrency** (`Task.Factory.StartNew`, `Task.WaitAll`, `ConcurrentQueue`). Dequeuing one item is modelled as atomic, and a worker's `Syncing` and outcome events are never split by another worker's. The threads could interleave their events more finely.
- **Connection timing.** All workers are taken to connect before any of them dequeues. A worker whose connection fails never dequeues, which is what the source does.
- **Event plumbing** (delegates, their null checks, the `EventArgs` classes). Events are appended to a trace whether or not a handler is subscribed.
- **Exception text.** The payload of `Error` is a `Fault` value, not .NET's message text. It names the field that was missing, the text that failed to parse, or the message the service threw.
- **`long.Parse` details.** It is modelled as an optional sign followed by decimal digits, checked against the `long` range. Leading and trailing white space, thousands separators and culture settings are not modelled.
- **Culture-sensitive comparisons.** `Contains` is ordinal in .NET. `IndexOf(string)` and `StartsWith(string)` are culture-sensitive, and they are modelled as ordinal.
- `SyncBotCore.SyncWorker.constructor`: does not model `Environment.ProcessorCount`, which is passed in. Before `InitializePerforce` the credentials are empty strings rather than `null`. The queue field is `null` in the source until `GatherFiles` assigns it (SyncBot.Core/SyncBot.cs:206 and :45); the model starts it as `[]`. Nothing reads it before that assignment, because `SyncFiles` only runs after `GatherFiles`.
- `SyncBotCli.Program.Run`: does not model the console's formatting (the "Syncing {0} files" text and the `{0:D2}` ids). Lines are values. A faulted task's message is its `TaskFault`. The exit code is `Exit`.
- **Sizes and counts.** Counts, sizes, ids and changelists are Dafny's unbounded `int`. `ConcurrentQueue.Count` is a 32-bit `int` in the source, so a queue of more than 2^31 - 1 items would overflow it; that case is not modelled. Sizes and changelists come from `long.Parse`, whose `long` range is checked (`ParseLong`).
- `SyncBotModel.GetSyncArgsAt`: carries no contract of its own. Its shape is stated by `SyncArgsShape` and its round trip by `SyncArgsAtRoundTrip`.
