/**
  `SyncWorker` (SyncBot.Core/SyncBot.cs): the object that gathers the files a
  workspace needs and drains them with a pool of workers. The events it raises
  are appended to `trace`; the worker threads are replaced by a sequential
  interleaving in which, at each step, some connected worker dequeues the head
  of the one shared queue.
 */
module SyncBotCore {
  import opened Results
  import opened Text
  import opened SyncBotModel

  class SyncWorker {
    var filesToSync: seq<DepotFile>
    var user: string
    var password: string
    var workspace: string
    var server: string
    var numThreads: int
    /** Every event raised so far, oldest first. */
    var trace: seq<Event>

    function CurrentCredentials(): Credentials
      reads this
    {
      Credentials(user, password, workspace, server)
    }

    /** `new SyncWorker()`, with `Environment.ProcessorCount` passed in. */
    constructor (processorCount: int)
      ensures numThreads == processorCount
      ensures filesToSync == [] && trace == []
      ensures CurrentCredentials() == Credentials("", "", "", "")
    {
      numThreads := processorCount;
      filesToSync := [];
      trace := [];
      user, password, workspace, server := "", "", "", "";
    }

    method InitializePerforce(user: string, password: string, workspace: string, server: string)
      modifies this`user, this`password, this`workspace, this`server
      ensures CurrentCredentials() == Credentials(user, password, workspace, server)
    {
      this.user := user;
      this.password := password;
      this.workspace := workspace;
      this.server := server;
    }

    method SetNumThreads(numThreads: int)
      modifies this`numThreads
      ensures this.numThreads == numThreads
    {
      this.numThreads := numThreads;
    }

    /**
      `Sync(path)`: gather, then sync. `ids[k]` is the worker that dequeued the `k`-th item;
      the outcome is how the returned task ends.
     */
    method Sync(path: string, service: Service) returns (outcome: TaskOutcome, ids: seq<int>)
      modifies this`filesToSync, this`trace
      ensures |old(trace)| <= |trace| && trace[..|old(trace)|] == old(trace)
      ensures SessionRun(path, numThreads, CurrentCredentials(), service, ids, filesToSync,
                         trace[|old(trace)|..], outcome)
    {
      var connected := GatherFiles(path, service);
      if !connected {
        // the exception from CreatePerforceConnection faults the task before SyncFiles
        outcome, ids := Faulted(GatherSessionFailed), [];
        assert trace[|old(trace)|..] == [];
        return;
      }
      ghost var gathered := trace;
      outcome, ids := SyncFiles(service);
      assert trace[|old(trace)|..][..|gathered| - |old(trace)|] == gathered[|old(trace)|..];
      assert trace[|old(trace)|..][|gathered| - |old(trace)|..] == trace[|gathered|..];
    }

    /**
      `GatherFiles(path)`: runs the dry-run sync and fills the queue. It returns false when
      opening the connection throws, which leaves the method before `Gathered` is raised.
     */
    method GatherFiles(path: string, service: Service) returns (connected: bool)
      modifies this`filesToSync, this`trace
      ensures connected == service.gatherSession(CurrentCredentials())
      ensures !connected ==> filesToSync == [] && trace == old(trace)
      ensures connected ==>
        var g := Gather(service.run(GetSyncArgs(path, true, false)));
        filesToSync == g.queue && trace == old(trace) + GatherEvents(g)
    {
      var totalFileSize := 0;
      filesToSync := [];
      connected := service.gatherSession(CurrentCredentials());
      if !connected {
        return;
      }
      var fault: Option<Fault> := None;
      var results := service.run(GetSyncArgs(path, true, false));
      match results {
        case Err(message) =>
          fault := Some(ServiceError(message));
        case Ok(dryRun) =>
          if |dryRun.records| > 0 {
            var total := LongField(dryRun.records[0], "totalFileSize");
            if total.Err? {
              fault := Some(total.error);
            } else {
              totalFileSize := total.value;
              var change := LongField(dryRun.records[0], "change");
              if change.Err? {
                fault := Some(change.error);
              } else {
                var files := Project(dryRun.records, change.value);
                if files.Err? {
                  fault := Some(files.error);
                } else {
                  filesToSync := files.value;
                  fault := EnqueueResolves(dryRun.messages, change.value);
                }
              }
            }
          }
      }
      if fault.Some? {
        trace := trace + [Error(fault.value)];
      }
      trace := trace + [Gathered(|filesToSync|, totalFileSize)];
    }

    /**
      The loop over the dry run's messages: every message that contains "must resolve" enqueues
      a zero-size item named by the text before " - must resolve"; when that delimiter is
      missing `Remove(-1)` throws and the rest of the messages are skipped.
     */
    method EnqueueResolves(messages: seq<string>, change: int) returns (fault: Option<Fault>)
      modifies this`filesToSync
      ensures filesToSync == old(filesToSync) + ScanResolves(messages, change).files
      ensures fault == ScanResolves(messages, change).fault
    {
      fault := None;
      ghost var all := ScanResolves(messages, change);
      var i := 0;
      while i < |messages| && fault.None?
        invariant 0 <= i <= |messages|
        invariant fault.None? ==>
          && old(filesToSync) + all.files == filesToSync + ScanResolves(messages[i..], change).files
          && all.fault == ScanResolves(messages[i..], change).fault
        invariant fault.Some? ==> filesToSync == old(filesToSync) + all.files && all.fault == fault
      {
        var message := messages[i];
        assert messages[i..][1..] == messages[i + 1..];
        if Contains(message, ResolveMarker) {
          var name := ResolvedFileName(message);
          if name.None? {
            fault := Some(NoResolveDelimiter(message));
          } else {
            filesToSync := filesToSync + [DepotFile(name.value, 0, change)];
          }
        }
        i := i + 1;
      }
      if fault.None? {
        assert messages[i..] == [];
      }
    }

    /**
      The workers' `while (filesToSync.TryDequeue(out file))` loops, interleaved: at each step
      one of the `live` workers takes the head of the queue, raises `Syncing`, runs the fetch
      and raises `Synced` or, when the fetch throws, `Error`, and goes on.
     */
    method DrainQueue(live: seq<int>, fetch: (nat, seq<string>) -> FetchResult) returns (ids: seq<int>)
      requires live != []
      modifies this`filesToSync, this`trace
      ensures filesToSync == [] && |ids| == |old(filesToSync)|
      ensures forall k :: 0 <= k < |ids| ==> ids[k] in live
      ensures trace == old(trace) + DrainTrace(old(filesToSync), ids, FetchResults(old(filesToSync), fetch))
    {
      ghost var queue := filesToSync;
      ghost var taken: seq<DepotFile> := [];
      ids := [];
      while filesToSync != []
        invariant queue == taken + filesToSync
        invariant |ids| == |taken|
        invariant forall k :: 0 <= k < |ids| ==> ids[k] in live
        invariant trace == old(trace) + DrainTrace(taken, ids, FetchResults(taken, fetch))
        decreases |filesToSync|
      {
        var current := Pick(live);
        ghost var file := filesToSync[0];
        assert queue == (taken + [file]) + filesToSync[1..];
        var result := SyncOne(current, |ids|, fetch);
        DrainTraceSnoc(taken, ids, FetchResults(taken, fetch), file, current, result);
        FetchResultsSnoc(taken, file, fetch, result);
        taken := taken + [file];
        ids := ids + [current];
      }
      assert taken == queue;
    }

    /**
      One pass of a worker's loop body: dequeue the head, raise `Syncing`, run the fetch and
      raise `Synced`, or `Error` with the message the fetch threw.
     */
    method SyncOne(current: int, k: nat, fetch: (nat, seq<string>) -> FetchResult) returns (result: FetchResult)
      requires filesToSync != []
      modifies this`filesToSync, this`trace
      ensures filesToSync == old(filesToSync[1..])
      ensures result == fetch(k, FetchArgs(old(filesToSync[0])))
      ensures trace == old(trace) + ItemEvents(current, old(filesToSync[0]), result)
    {
      var file := filesToSync[0];
      filesToSync := filesToSync[1..];
      trace := trace + [Syncing(current, file.name, file.size)];
      var args := GetSyncArgsAt(file.name, file.change, false, false);
      result := fetch(k, args);
      if result.Fetched? {
        trace := trace + [Synced(current, file.name, file.size)];
      } else {
        trace := trace + [Error(ServiceError(result.message))];
      }
    }

    /** The scheduler: some worker among `live`, chosen nondeterministically. */
    static method Pick(live: seq<int>) returns (id: int)
      requires live != []
      ensures id in live
    {
      var i :| 0 <= i < |live|;
      id := live[i];
    }

    /**
      `SyncFiles()`: starts `min(numThreads, queue length)` workers; every worker that connects
      dequeues items until the queue is empty, raising `Syncing` and then `Synced` or `Error`
      for each.
     */
    method SyncFiles(service: Service) returns (outcome: TaskOutcome, ids: seq<int>)
      modifies this`filesToSync, this`trace
      ensures |old(trace)| <= |trace| && trace[..|old(trace)|] == old(trace)
      ensures PoolRun(old(filesToSync), numThreads, CurrentCredentials(), service, ids, filesToSync,
                      trace[|old(trace)|..], outcome)
    {
      var numTasks := WorkerCount(numThreads, |filesToSync|);
      ids := [];
      if numTasks < 0 {
        // new Task[numTasks] throws an OverflowException
        outcome := Faulted(NegativeWorkerCount);
        assert trace[|old(trace)|..] == [];
        return;
      }
      var creds := CurrentCredentials();
      var live := LiveWorkers(numTasks, creds, service);
      ghost var start := trace;
      if live != [] {
        ids := DrainQueue(live, service.fetch);
      }
      assert trace[|old(trace)|..] == trace[|start|..];
      outcome := if AllConnected(numTasks, creds, service) then Completed else Faulted(WorkerSessionsFailed);
    }
  }
}
