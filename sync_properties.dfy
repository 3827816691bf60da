/**
  What the SyncBot sync engine promises, proved about the specification in
  `SyncBotModel`: the sync command lines, the queue and totals the gather phase
  produces (including its failure paths), and the shape of the worker pool's
  event trace.
 */
module SyncBotProperties {
  import opened Results
  import opened Text
  import opened SyncBotModel

  // ---------------------------------------------------------------------------
  // Sync command lines

  /** "-n" when previewing, then "-f" when forcing, then the path (bare or pinned to a changelist). */
  lemma SyncArgsShape(path: string, changelist: int, preview: bool, force: bool)
    ensures var args := GetSyncArgs(path, preview, force);
      && |args| == 1 + (if preview then 1 else 0) + (if force then 1 else 0)
      && args[|args| - 1] == path
      && ("-n" in args[..|args| - 1]) == preview
      && ("-f" in args[..|args| - 1]) == force
      && (preview ==> args[0] == "-n")
    ensures var args := GetSyncArgsAt(path, changelist, preview, force);
      && |args| == |GetSyncArgs(path, preview, force)|
      && args[..|args| - 1] == Flags(preview, force)
      && ("-n" in args[..|args| - 1]) == preview
      && ("-f" in args[..|args| - 1]) == force
      && args[|args| - 1] == path + "@" + LongToString(changelist)
  {
  }

  /** The gather phase asks for a preview of the bare path. */
  lemma GatherArgs(path: string)
    ensures GetSyncArgs(path, true, false) == ["-n", path]
  {
  }

  /** Each fetch is a plain sync of one file pinned to its changelist. */
  lemma FetchArgsShape(f: DepotFile)
    ensures FetchArgs(f) == [f.name + "@" + LongToString(f.change)]
  {
  }

  /** The service reads the flags off the front of the command line and splits the target at its revision. */
  lemma ParseFlagsThenTarget(preview: bool, force: bool, target: string)
    ensures ParseSyncArgs(Flags(preview, force) + [target])
         == Some(SyncCommand(preview, force, SplitRevision(target).0, SplitRevision(target).1))
  {
    var args := Flags(preview, force) + [target];
    assert args[..|args| - 1] == Flags(preview, force);
  }

  /** A target whose text after its last '@' parses as a `long` is split there. */
  lemma SplitAtLastSign(path: string, digits: string, n: int)
    requires '@' !in digits
    requires ParseLong(digits) == Some(n)
    ensures SplitRevision(path + "@" + digits) == (path, Some(n))
  {
    var target := path + "@" + digits;
    LastIndexBeforeTail(path, '@', digits);
    assert target[|path| + 1..] == digits && target[..|path|] == path;
  }

  /** A character followed only by other characters is the last occurrence of itself. */
  lemma {:induction false} LastIndexBeforeTail(s: string, c: char, tail: string)
    requires c !in tail
    ensures LastIndexOf(s + [c] + tail, c) == |s|
  {
    var u := s + [c] + tail;
    if tail != [] {
      assert u[..|u| - 1] == s + [c] + tail[..|tail| - 1];
      LastIndexBeforeTail(s, c, tail[..|tail| - 1]);
    } else {
      assert u[|u| - 1] == c;
    }
  }

  /** The service reads back the flags and the bare path (a path without '@' carries no revision). */
  lemma SyncArgsRoundTrip(path: string, preview: bool, force: bool)
    requires '@' !in path
    ensures ParseSyncArgs(GetSyncArgs(path, preview, force)) == Some(SyncCommand(preview, force, path, None))
  {
    ParseFlagsThenTarget(preview, force, path);
  }

  /** The service reads back the flags, the path and the changelist, whatever the path contains. */
  lemma SyncArgsAtRoundTrip(path: string, changelist: int, preview: bool, force: bool)
    requires IsLong(changelist)
    ensures ParseSyncArgs(GetSyncArgsAt(path, changelist, preview, force))
         == Some(SyncCommand(preview, force, path, Some(changelist)))
  {
    var digits := LongToString(changelist);
    LongToStringAlphabet(changelist);
    assert '@' !in digits;
    LongRoundTrip(changelist);
    SplitAtLastSign(path, digits, changelist);
    ParseFlagsThenTarget(preview, force, path + "@" + digits);
  }

  // ---------------------------------------------------------------------------
  // Gather phase

  /** The messages the loop at SyncBot.cs lines 60-71 acts on: those containing "must resolve", in order. */
  function MustResolve(messages: seq<string>): (ms: seq<string>)
    ensures |ms| <= |messages|
    ensures forall i :: 0 <= i < |ms| ==> Contains(ms[i], ResolveMarker)
  {
    if messages == [] then []
    else if Contains(messages[0], ResolveMarker) then [messages[0]] + MustResolve(messages[1..])
    else MustResolve(messages[1..])
  }

  /** The index of the first message without " - must resolve", or `|ms|` when every one has it. */
  function FirstUnnamed(ms: seq<string>): (k: nat)
    ensures k <= |ms|
    ensures forall i :: 0 <= i < k ==> ResolvedFileName(ms[i]).Some?
    ensures k < |ms| ==> ResolvedFileName(ms[k]).None?
  {
    if ms == [] || ResolvedFileName(ms[0]).None? then 0 else 1 + FirstUnnamed(ms[1..])
  }

  /**
    The message loop enqueues one item per "must resolve" message until the first such
    message without " - must resolve", which throws and ends the loop.
   */
  lemma {:induction false} ResolveStops(messages: seq<string>, change: int)
    ensures var r := ScanResolves(messages, change);
      var ms := MustResolve(messages);
      var k := FirstUnnamed(ms);
      && |r.files| == k
      && r.fault == (if k < |ms| then Some(NoResolveDelimiter(ms[k])) else None)
  {
    if messages != [] {
      ResolveStops(messages[1..], change);
      if Contains(messages[0], ResolveMarker) {
        assert MustResolve(messages)[1..] == MustResolve(messages[1..]);
      }
    }
  }

  /**
    The items come in message order: item `i` is named by the text before " - must resolve"
    in the `i`-th "must resolve" message (its size is 0 and its change `change`).
   */
  lemma {:induction false} ResolveNames(messages: seq<string>, change: int)
    ensures |ScanResolves(messages, change).files| <= |MustResolve(messages)|
    ensures var r := ScanResolves(messages, change);
      var ms := MustResolve(messages);
      forall i :: 0 <= i < |r.files| ==> i < |ms| && ResolvedFileName(ms[i]) == Some(r.files[i].name)
  {
    ResolveStops(messages, change);
    NamesInOrder(messages, change);
    var r := ScanResolves(messages, change);
    var ms := MustResolve(messages);
    forall i | 0 <= i < |r.files|
      ensures i < |ms| && ResolvedFileName(ms[i]) == Some(r.files[i].name)
    {
      NamedInOrderAt(r.files, ms, i);
    }
  }

  /** Each item of `files` is named from the message at the same position of `ms`. */
  predicate NamedInOrder(files: seq<DepotFile>, ms: seq<string>)
    decreases |files|
  {
    files == []
    || (ms != [] && ResolvedFileName(ms[0]) == Some(files[0].name) && NamedInOrder(files[1..], ms[1..]))
  }

  /** Position `i` of a list named in order is named by message `i`. */
  lemma {:induction false} NamedInOrderAt(files: seq<DepotFile>, ms: seq<string>, i: int)
    requires NamedInOrder(files, ms) && 0 <= i < |files|
    ensures i < |ms| && ResolvedFileName(ms[i]) == Some(files[i].name)
  {
    if i > 0 {
      NamedInOrderAt(files[1..], ms[1..], i - 1);
    }
  }

  /** The induction behind `ResolveNames`. */
  lemma {:induction false} NamesInOrder(messages: seq<string>, change: int)
    ensures NamedInOrder(ScanResolves(messages, change).files, MustResolve(messages))
  {
    if messages != [] {
      NamesInOrder(messages[1..], change);
      var rest := ScanResolves(messages[1..], change);
      var restMs := MustResolve(messages[1..]);
      if Contains(messages[0], ResolveMarker) {
        var ms := MustResolve(messages);
        assert ms == [messages[0]] + restMs;
        match ResolvedFileName(messages[0])
        case None =>
        case Some(n) =>
          var files := ScanResolves(messages, change).files;
          assert files == [DepotFile(n, 0, change)] + rest.files;
          assert files[1..] == rest.files && ms[1..] == restMs;
      }
    }
  }

  /** Every fault-free "must resolve" message yields exactly one item: the queue grows by their number. */
  lemma ResolveCount(messages: seq<string>, change: int)
    requires forall m :: m in MustResolve(messages) ==> ResolvedFileName(m).Some?
    ensures ScanResolves(messages, change).fault == None
    ensures |ScanResolves(messages, change).files| == |MustResolve(messages)|
  {
    ResolveStops(messages, change);
  }

  /** Records `records[j]` for `j < k` are well formed and `records[k]` is not. */
  predicate FirstMalformed(records: seq<Fields>, k: int) {
    0 <= k < |records| && !WellFormedRecord(records[k])
    && forall j :: 0 <= j < k ==> WellFormedRecord(records[j])
  }

  /** The projection fails with the fault of the first record it cannot turn into an item. */
  lemma {:induction false} ProjectFirstFailure(records: seq<Fields>, change: int, k: int)
    requires FirstMalformed(records, k)
    ensures ToDepotFile(records[k], change).Err?
    ensures Project(records, change) == Err(ToDepotFile(records[k], change).error)
  {
    if k > 0 {
      assert WellFormedRecord(records[0]);
      assert FirstMalformed(records[1..], k - 1) by {
        assert forall j :: 0 <= j < k - 1 ==> records[1..][j] == records[j + 1];
      }
      ProjectFirstFailure(records[1..], change, k - 1);
    }
  }

  /** The dry-run's first record carries a parsable total size and changelist. */
  predicate HeaderParses(d: DryRun) {
    |d.records| > 0 && LongField(d.records[0], "totalFileSize").Ok? && LongField(d.records[0], "change").Ok?
  }

  /**
    With well-formed records, the queue first holds one item per record, in record order,
    each pinned to the changelist of record 0; the "must resolve" items follow; the reported
    total is record 0's `totalFileSize`.
   */
  lemma GatherRecordItems(d: DryRun)
    requires HeaderParses(d)
    requires forall i :: 0 <= i < |d.records| ==> WellFormedRecord(d.records[i])
    ensures var g := Gather(Ok(d));
      var change := LongField(d.records[0], "change").value;
      && |d.records| <= |g.queue|
      && (forall i :: 0 <= i < |d.records| ==>
            g.queue[i] == DepotFile(d.records[i]["depotFile"], ParseLong(d.records[i]["fileSize"]).value, change))
      && g.queue[|d.records|..] == ScanResolves(d.messages, change).files
      && Some(g.totalFileSize) == ParseLong(d.records[0]["totalFileSize"])
      && g.fault == ScanResolves(d.messages, change).fault
  {
    var change := LongField(d.records[0], "change").value;
    var files := Project(d.records, change).value;
    assert (files + ScanResolves(d.messages, change).files)[|d.records|..] == ScanResolves(d.messages, change).files;
  }

  /**
    `Gathered` is raised once, last, with the final queue length and the total; an `Error`
    comes before it exactly when a step of the try block threw.
   */
  lemma GatheredReport(g: Gathering)
    ensures var events := GatherEvents(g);
      forall j :: 0 <= j < |events| ==> (events[j].Gathered? <==> j == |events| - 1)
    ensures g.fault.None? ==> GatherEvents(g) == [Gathered(|g.queue|, g.totalFileSize)]
    ensures g.fault.Some? ==> GatherEvents(g) == [Error(g.fault.value), Gathered(|g.queue|, g.totalFileSize)]
  {
  }

  /** The messages do not change the reported total: must-resolve items add to the count only. */
  lemma TotalIgnoresMessages(records: seq<Fields>, messages1: seq<string>, messages2: seq<string>)
    ensures Gather(Ok(DryRun(records, messages1))).totalFileSize == Gather(Ok(DryRun(records, messages2))).totalFileSize
  {
  }

  /** No records: an empty queue, the messages are not looked at, and `Gathered(0, 0)` alone. */
  lemma GatherNoRecords(messages: seq<string>)
    ensures Gather(Ok(DryRun([], messages))) == Gathering([], 0, None)
    ensures GatherEvents(Gather(Ok(DryRun([], messages)))) == [Gathered(0, 0)]
  {
  }

  /** A dry run that throws gives one `Error` and `Gathered(0, 0)`. */
  lemma GatherQueryFails(message: string)
    ensures GatherEvents(Gather(Err(message))) == [Error(ServiceError(message)), Gathered(0, 0)]
  {
  }

  /**
    A failure while reading the first record or projecting the records keeps the queue
    empty: `Gathered(0, 0)` when `totalFileSize` fails, `Gathered(0, total)` once it parsed.
   */
  lemma GatherHeaderFaults(d: DryRun, k: int)
    requires |d.records| > 0
    ensures var first := d.records[0];
      var total := LongField(first, "totalFileSize");
      var change := LongField(first, "change");
      && (total.Err? ==> GatherEvents(Gather(Ok(d))) == [Error(total.error), Gathered(0, 0)])
      && (total.Ok? && change.Err? ==>
            GatherEvents(Gather(Ok(d))) == [Error(change.error), Gathered(0, total.value)])
      && (total.Ok? && change.Ok? && FirstMalformed(d.records, k) ==>
            GatherEvents(Gather(Ok(d)))
              == [Error(ToDepotFile(d.records[k], change.value).error), Gathered(0, total.value)])
  {
    var total := LongField(d.records[0], "totalFileSize");
    var change := LongField(d.records[0], "change");
    if total.Ok? && change.Ok? && FirstMalformed(d.records, k) {
      ProjectFirstFailure(d.records, change.value, k);
    }
  }

  /**
    A "must resolve" message without " - must resolve" ends the loop: the items already
    enqueued stay, later messages are skipped, one `Error` and then `Gathered` with that count.
   */
  lemma GatherDelimiterMissing(d: DryRun)
    requires HeaderParses(d)
    requires forall i :: 0 <= i < |d.records| ==> WellFormedRecord(d.records[i])
    ensures var r := ScanResolves(d.messages, LongField(d.records[0], "change").value);
      r.fault.Some? ==>
        GatherEvents(Gather(Ok(d))) == [Error(r.fault.value), Gathered(|d.records| + |r.files|, Gather(Ok(d)).totalFileSize)]
  {
    GatherRecordItems(d);
    var g := Gather(Ok(d));
    assert |g.queue| == |d.records| + |g.queue[|d.records|..]|;
    GatheredReport(g);
  }

  /**
    `k` well-formed records and `m` "must resolve" messages that all name their file give
    `Gathered(k + m, total)` and no `Error`; every item carries record 0's changelist.
   */
  lemma GatherCounts(d: DryRun)
    requires HeaderParses(d)
    requires forall i :: 0 <= i < |d.records| ==> WellFormedRecord(d.records[i])
    requires forall m :: m in MustResolve(d.messages) ==> ResolvedFileName(m).Some?
    ensures var total := LongField(d.records[0], "totalFileSize").value;
      GatherEvents(Gather(Ok(d))) == [Gathered(|d.records| + |MustResolve(d.messages)|, total)]
    ensures forall i :: 0 <= i < |Gather(Ok(d)).queue| ==>
      Gather(Ok(d)).queue[i].change == LongField(d.records[0], "change").value
  {
    var change := LongField(d.records[0], "change").value;
    GatherRecordItems(d);
    ResolveCount(d.messages, change);
    var g := Gather(Ok(d));
    assert |g.queue| == |d.records| + |g.queue[|d.records|..]|;
    forall i | |d.records| <= i < |g.queue|
      ensures g.queue[i].change == change
    {
      assert g.queue[i] == g.queue[|d.records|..][i - |d.records|];
    }
  }

  // ---------------------------------------------------------------------------
  // Sync phase

  /** Dequeue `k` gives event `2k`, `Syncing`, and event `2k + 1`, `Synced` or `Error`. */
  lemma {:induction false} DrainTraceAt(items: seq<DepotFile>, ids: seq<int>, results: seq<FetchResult>, k: int)
    requires |ids| == |items| == |results|
    requires 0 <= k < |items|
    ensures var t := DrainTrace(items, ids, results);
      && t[2 * k] == Syncing(ids[k], items[k].name, items[k].size)
      && t[2 * k + 1] == (if results[k].Fetched? then Synced(ids[k], items[k].name, items[k].size)
                          else Error(ServiceError(results[k].message)))
  {
    var n := |items| - 1;
    if k < n {
      DrainTraceAt(items[..n], ids[..n], results[..n], k);
    }
  }

  /** A drain raises no `Gathered`, and each `Syncing` and `Synced` names one of the workers that dequeued. */
  lemma DrainTraceKinds(items: seq<DepotFile>, ids: seq<int>, results: seq<FetchResult>)
    requires |ids| == |items| == |results|
    ensures var t := DrainTrace(items, ids, results);
      forall j :: 0 <= j < |t| ==> !t[j].Gathered? && (t[j].Syncing? || t[j].Synced? ==> t[j].id in ids)
  {
    var t := DrainTrace(items, ids, results);
    forall j | 0 <= j < |t|
      ensures !t[j].Gathered? && (t[j].Syncing? || t[j].Synced? ==> t[j].id in ids)
    {
      var k := j / 2;
      DrainTraceAt(items, ids, results, k);
      assert j == 2 * k || j == 2 * k + 1;
    }
  }

  /**
    When at least one worker connects, the queue is emptied and each item is dequeued by
    exactly one worker, in queue order: event `2k` is the `Syncing` of item `k`, followed by
    its `Synced`, or by one `Error` when its fetch threw, after which draining continues.
   */
  lemma PoolDequeuesEachOnce(queue: seq<DepotFile>, numThreads: int, creds: Credentials, service: Service,
                             ids: seq<int>, remaining: seq<DepotFile>, events: seq<Event>, outcome: TaskOutcome)
    requires PoolRun(queue, numThreads, creds, service, ids, remaining, events, outcome)
    requires WorkerCount(numThreads, |queue|) >= 0
    requires LiveWorkers(WorkerCount(numThreads, |queue|), creds, service) != []
    ensures remaining == [] && |ids| == |queue| && |events| == 2 * |queue|
    ensures forall k :: 0 <= k < |queue| ==>
      && events[2 * k] == Syncing(ids[k], queue[k].name, queue[k].size)
      && events[2 * k + 1] == (if service.fetch(k, FetchArgs(queue[k])).Fetched?
                               then Synced(ids[k], queue[k].name, queue[k].size)
                               else Error(ServiceError(service.fetch(k, FetchArgs(queue[k])).message)))
  {
    var results := FetchResults(queue, service.fetch);
    forall k | 0 <= k < |queue|
      ensures events[2 * k] == Syncing(ids[k], queue[k].name, queue[k].size)
      ensures events[2 * k + 1] == (if service.fetch(k, FetchArgs(queue[k])).Fetched?
                                    then Synced(ids[k], queue[k].name, queue[k].size)
                                    else Error(ServiceError(service.fetch(k, FetchArgs(queue[k])).message)))
    {
      DrainTraceAt(queue, ids, results, k);
    }
  }

  /**
    The pool runs `min(numThreads, queue length)` workers: every `Syncing` and `Synced`
    carries the id of a worker in `[0, min(numThreads, queue length))` that connected.
   */
  lemma PoolWorkerIds(queue: seq<DepotFile>, numThreads: int, creds: Credentials, service: Service,
                      ids: seq<int>, remaining: seq<DepotFile>, events: seq<Event>, outcome: TaskOutcome)
    requires PoolRun(queue, numThreads, creds, service, ids, remaining, events, outcome)
    ensures forall j :: 0 <= j < |events| && (events[j].Syncing? || events[j].Synced?) ==>
      && 0 <= events[j].id < WorkerCount(numThreads, |queue|)
      && service.workerSession(creds, events[j].id)
  {
    var numTasks := WorkerCount(numThreads, |queue|);
    if numTasks >= 0 {
      var live := LiveWorkers(numTasks, creds, service);
      var taken := Drained(queue, live);
      assert events == DrainTrace(taken, ids, FetchResults(taken, service.fetch));
      DrainTraceKinds(taken, ids, FetchResults(taken, service.fetch));
      forall id | id in ids
        ensures id in live
      {
        var k :| 0 <= k < |ids| && ids[k] == id;
      }
      forall j | 0 <= j < |events| && (events[j].Syncing? || events[j].Synced?)
        ensures events[j].id in live
      {
        assert events[j].id in ids;
      }
    }
  }

  /** An empty queue starts no worker and raises no event. */
  lemma PoolEmptyQueue(numThreads: int, creds: Credentials, service: Service,
                       ids: seq<int>, remaining: seq<DepotFile>, events: seq<Event>, outcome: TaskOutcome)
    requires numThreads >= 0
    requires PoolRun([], numThreads, creds, service, ids, remaining, events, outcome)
    ensures WorkerCount(numThreads, 0) == 0
    ensures ids == [] && remaining == [] && events == [] && outcome == Completed
  {
  }

  /**
    Failure isolation: when only the fetch of dequeue `k` throws, the trace holds exactly one
    `Error`, for that item, and every other item is `Synced`.
   */
  lemma PoolSingleFailure(queue: seq<DepotFile>, numThreads: int, creds: Credentials, service: Service,
                          ids: seq<int>, remaining: seq<DepotFile>, events: seq<Event>, outcome: TaskOutcome, k: int)
    requires PoolRun(queue, numThreads, creds, service, ids, remaining, events, outcome)
    requires WorkerCount(numThreads, |queue|) >= 0
    requires LiveWorkers(WorkerCount(numThreads, |queue|), creds, service) != []
    requires 0 <= k < |queue|
    requires forall i :: 0 <= i < |queue| ==> (service.fetch(i, FetchArgs(queue[i])).Fetched? <==> i != k)
    ensures forall j :: 0 <= j < |events| ==> (events[j].Error? <==> j == 2 * k + 1)
    ensures forall i :: 0 <= i < |queue| && i != k ==> events[2 * i + 1] == Synced(ids[i], queue[i].name, queue[i].size)
  {
    PoolDequeuesEachOnce(queue, numThreads, creds, service, ids, remaining, events, outcome);
    forall i | 0 <= i < |queue|
      ensures events[2 * i].Syncing?
      ensures events[2 * i + 1].Error? <==> i == k
    {
      var result := service.fetch(i, FetchArgs(queue[i]));
      assert result.Fetched? <==> i != k;
    }
    OddErrorOnly(events, |queue|, k);
  }

  /** In a trace of `Syncing`/outcome pairs where only pair `k` failed, event `2k + 1` is the only `Error`. */
  lemma OddErrorOnly(events: seq<Event>, n: nat, k: int)
    requires |events| == 2 * n
    requires forall i :: 0 <= i < n ==> events[2 * i].Syncing?
    requires forall i :: 0 <= i < n ==> (events[2 * i + 1].Error? <==> i == k)
    ensures forall j :: 0 <= j < |events| ==> (events[j].Error? <==> j == 2 * k + 1)
  {
    forall j | 0 <= j < |events|
      ensures events[j].Error? <==> j == 2 * k + 1
    {
      var i := j / 2;
      if j == 2 * i {
        assert events[2 * i].Syncing?;
      } else {
        assert events[2 * i + 1].Error? <==> i == k;
      }
    }
  }

  /** A pool of four workers and two items: two workers start and, when every fetch succeeds, two `Synced`. */
  lemma PoolFourThreadsTwoItems(queue: seq<DepotFile>, creds: Credentials, service: Service,
                                ids: seq<int>, remaining: seq<DepotFile>, events: seq<Event>, outcome: TaskOutcome)
    requires |queue| == 2
    requires PoolRun(queue, 4, creds, service, ids, remaining, events, outcome)
    requires service.workerSession(creds, 0) && service.workerSession(creds, 1)
    requires forall i :: 0 <= i < 2 ==> service.fetch(i, FetchArgs(queue[i])).Fetched?
    ensures WorkerCount(4, |queue|) == 2 && outcome == Completed
    ensures |events| == 4
    ensures events[1] == Synced(ids[0], queue[0].name, queue[0].size)
    ensures events[3] == Synced(ids[1], queue[1].name, queue[1].size)
  {
    assert 0 in LiveWorkers(2, creds, service);
    PoolDequeuesEachOnce(queue, 4, creds, service, ids, remaining, events, outcome);
    assert events[2 * 1 + 1] == Synced(ids[1], queue[1].name, queue[1].size);
  }

  /**
    Phase order of one `Sync`: when the gather connection opens, `Gathered` is raised exactly
    once and every `Syncing` and `Synced` comes after it; when it cannot open, nothing is raised
    (the exception faults the task instead of becoming an `Error`).
   */
  lemma SessionOrder(path: string, numThreads: int, creds: Credentials, service: Service,
                     ids: seq<int>, remaining: seq<DepotFile>, events: seq<Event>, outcome: TaskOutcome)
    requires SessionRun(path, numThreads, creds, service, ids, remaining, events, outcome)
    ensures !service.gatherSession(creds) ==> events == [] && outcome == Faulted(GatherSessionFailed)
    ensures service.gatherSession(creds) ==>
      exists g :: 0 <= g < |events| && events[g].Gathered?
        && (forall j :: 0 <= j < |events| && j != g ==> !events[j].Gathered?)
        && (forall j :: 0 <= j < |events| && (events[j].Syncing? || events[j].Synced?) ==> g < j)
  {
    if service.gatherSession(creds) {
      var gathering := Gather(service.run(GetSyncArgs(path, true, false)));
      var n := |GatherEvents(gathering)|;
      PoolRaisesNoGathered(gathering.queue, numThreads, creds, service, ids, remaining, events[n..], outcome);
      GatherThenPool(gathering, events);
    }
  }

  /** The pool raises no `Gathered`. */
  lemma PoolRaisesNoGathered(queue: seq<DepotFile>, numThreads: int, creds: Credentials, service: Service,
                             ids: seq<int>, remaining: seq<DepotFile>, events: seq<Event>, outcome: TaskOutcome)
    requires PoolRun(queue, numThreads, creds, service, ids, remaining, events, outcome)
    ensures forall j :: 0 <= j < |events| ==> !events[j].Gathered?
  {
    var numTasks := WorkerCount(numThreads, |queue|);
    if numTasks >= 0 {
      var taken := Drained(queue, LiveWorkers(numTasks, creds, service));
      assert events == DrainTrace(taken, ids, FetchResults(taken, service.fetch));
      DrainTraceKinds(taken, ids, FetchResults(taken, service.fetch));
    }
  }

  /** The gather events followed by events without `Gathered`: the one `Gathered` precedes everything after it. */
  lemma GatherThenPool(g: Gathering, events: seq<Event>)
    requires |GatherEvents(g)| <= |events| && events[..|GatherEvents(g)|] == GatherEvents(g)
    requires var rest := events[|GatherEvents(g)|..]; forall j :: 0 <= j < |rest| ==> !rest[j].Gathered?
    ensures exists at ::
      && 0 <= at < |events| && events[at].Gathered?
      && (forall j :: 0 <= j < |events| && j != at ==> !events[j].Gathered?)
      && (forall j :: 0 <= j < |events| && (events[j].Syncing? || events[j].Synced?) ==> at < j)
  {
    var prefix := GatherEvents(g);
    var rest := events[|prefix|..];
    var at := |prefix| - 1;
    assert events[at] == prefix[at];
    forall j | 0 <= j < |events|
      ensures j != at ==> !events[j].Gathered?
      ensures events[j].Syncing? || events[j].Synced? ==> at < j
    {
      if j > at {
        assert events[j] == rest[j - at - 1];
      } else {
        assert events[j] == prefix[j];
      }
    }
  }
}
