/**
  The values and specification functions of the SyncBot sync engine
  (SyncBot.Core/SyncBot.cs): work items, the events a `SyncWorker` raises,
  the sync command lines it builds, what the gather phase makes of a dry-run
  result, and what the worker pool's drain emits.

  The Perforce service is not modelled: a `Service` value stands for it, giving
  whether a connection can be opened and logged in, what a dry-run `sync -n`
  returns and whether each real fetch succeeds.
 */
module SyncBotModel {
  import opened Results
  import opened Text

  /** The field map of one tagged Perforce record. */
  type Fields = map<string, string>

  /** What `p4 sync -n` reports: the tagged records and the diagnostic messages. */
  datatype DryRun = DryRun(records: seq<Fields>, messages: seq<string>)

  /** One file to fetch (`DepotFile`): its depot path, its size in bytes and the changelist to pin it to. */
  datatype DepotFile = DepotFile(name: string, size: int, change: int)

  /** Why a step failed; the payload of an `Error` event. */
  datatype Fault =
    | ServiceError(message: string)        // the Perforce call threw
    | MissingField(field: string)          // a record lacks a field the code reads
    | BadNumber(text: string)              // `long.Parse` rejected a field
    | NoResolveDelimiter(message: string)  // a "must resolve" message without " - must resolve"

  /** The four events a `SyncWorker` raises, in the order raised. */
  datatype Event =
    | Gathered(totalFileCount: int, totalFileSize: int)
    | Syncing(id: int, name: string, size: int)
    | Synced(id: int, name: string, size: int)
    | Error(error: Fault)

  /** What `InitializePerforce` stores and every connection logs in with. */
  datatype Credentials = Credentials(user: string, password: string, workspace: string, server: string)

  datatype FetchResult = Fetched | FetchFailed(message: string)

  /**
    The Perforce service as the engine sees it: whether `CreatePerforceConnection`
    succeeds for the gather phase and for worker `id`, what `Run("sync", args)` returns
    for a dry run, and the outcome of the `k`-th real fetch with arguments `args`.
   */
  datatype Service = Service(
    gatherSession: Credentials -> bool,
    workerSession: (Credentials, int) -> bool,
    run: seq<string> -> Result<DryRun, string>,
    fetch: (nat, seq<string>) -> FetchResult)

  /** Why the task returned by `Sync` faults: each is an exception that escapes a try block. */
  datatype TaskFault =
    | GatherSessionFailed     // CreatePerforceConnection threw in GatherFiles
    | WorkerSessionsFailed    // some worker's CreatePerforceConnection threw; Task.WaitAll rethrows
    | NegativeWorkerCount     // `new Task[numTasks]` with numTasks < 0

  datatype TaskOutcome = Completed | Faulted(fault: TaskFault)

  // ---------------------------------------------------------------------------
  // Sync command lines

  /** A sync command line as the service reads it. */
  datatype SyncCommand = SyncCommand(preview: bool, force: bool, path: string, change: Option<int>)

  function Flags(preview: bool, force: bool): seq<string> {
    (if preview then ["-n"] else []) + (if force then ["-f"] else [])
  }

  /** `GetSyncArgs(path, preview, force)`: the optional flags, then the bare path. */
  function GetSyncArgs(path: string, preview: bool, force: bool): (args: seq<string>)
    ensures |args| == 1 + (if preview then 1 else 0) + (if force then 1 else 0)
    ensures args[|args| - 1] == path
    ensures forall i :: 0 <= i < |args| - 1 ==> args[i] == "-n" || args[i] == "-f"
  {
    Flags(preview, force) + [path]
  }

  /** `GetSyncArgs(path, changelist, preview, force)`: the optional flags, then `path@changelist`. */
  function GetSyncArgsAt(path: string, changelist: int, preview: bool, force: bool): seq<string> {
    Flags(preview, force) + [path + "@" + LongToString(changelist)]
  }

  /** Reads a revision pinned with '@': the text before the last '@' and the number after it. */
  function SplitRevision(target: string): (string, Option<int>) {
    var at := LastIndexOf(target, '@');
    if at == -1 then (target, None)
    else
      match ParseLong(target[at + 1..])
      case Some(change) => (target[..at], Some(change))
      case None => (target, None)
  }

  /** Reads a sync command line: "-n" and "-f" in that order, each optional, then the target. */
  function ParseSyncArgs(args: seq<string>): Option<SyncCommand> {
    if args == [] then None
    else
      var flags := args[..|args| - 1];
      var (path, change) := SplitRevision(args[|args| - 1]);
      if flags == Flags(false, false) || flags == Flags(true, false)
         || flags == Flags(false, true) || flags == Flags(true, true)
      then Some(SyncCommand("-n" in flags, "-f" in flags, path, change))
      else None
  }

  // ---------------------------------------------------------------------------
  // Gather phase

  /** `r.Fields[key]`, which throws when the record has no such field. */
  function Field(r: Fields, key: string): (v: Result<string, Fault>)
    ensures v.Ok? <==> key in r
    ensures v.Ok? ==> v.value == r[key]
    ensures v.Err? ==> v.error == MissingField(key)
  {
    if key in r then Ok(r[key]) else Err(MissingField(key))
  }

  /** `long.Parse(r.Fields[key])`. */
  function LongField(r: Fields, key: string): (v: Result<int, Fault>)
    ensures v.Ok? <==> key in r && ParseLong(r[key]).Some?
    ensures v.Ok? ==> Some(v.value) == ParseLong(r[key]) && IsLong(v.value)
  {
    match Field(r, key)
    case Err(e) => Err(e)
    case Ok(text) =>
      match ParseLong(text)
      case Some(n) => Ok(n)
      case None => Err(BadNumber(text))
  }

  /** A record the projection at SyncBot.cs line 57 turns into a work item without throwing. */
  predicate WellFormedRecord(r: Fields) {
    "depotFile" in r && "fileSize" in r && ParseLong(r["fileSize"]).Some?
  }

  /** The work item a well-formed record stands for. */
  function RecordFile(r: Fields, change: int): DepotFile
    requires WellFormedRecord(r)
  {
    DepotFile(r["depotFile"], ParseLong(r["fileSize"]).value, change)
  }

  /** The object initializer of line 57: `Name` is read before `Size`. */
  function ToDepotFile(r: Fields, change: int): (f: Result<DepotFile, Fault>)
    ensures f.Ok? <==> WellFormedRecord(r)
    ensures f.Ok? ==> f.value == RecordFile(r, change)
  {
    match Field(r, "depotFile")
    case Err(e) => Err(e)
    case Ok(name) =>
      match LongField(r, "fileSize")
      case Err(e) => Err(e)
      case Ok(size) => Ok(DepotFile(name, size, change))
  }

  /** `Records.Select(...).ToList()`: every record in order, or the first record's failure. */
  function Project(records: seq<Fields>, change: int): (r: Result<seq<DepotFile>, Fault>)
    ensures r.Ok? <==> forall i :: 0 <= i < |records| ==> WellFormedRecord(records[i])
    ensures r.Ok? ==> |r.value| == |records|
    ensures r.Ok? ==> forall i :: 0 <= i < |records| ==> r.value[i] == RecordFile(records[i], change)
  {
    if records == [] then Ok([])
    else
      match ToDepotFile(records[0], change)
      case Err(e) => Err(e)
      case Ok(f) =>
        match Project(records[1..], change)
        case Err(e) => Err(e)
        case Ok(rest) => Ok([f] + rest)
  }

  const ResolveMarker: string := "must resolve"
  const ResolveDelimiter: string := " - must resolve"

  /**
    `message.Remove(message.IndexOf(" - must resolve"))`: the text before the first
    delimiter; `Remove(-1)` throws when the delimiter is missing.
   */
  function ResolvedFileName(message: string): Option<string> {
    Remove(message, IndexOf(message, ResolveDelimiter))
  }

  /** The name is exactly the text before the first " - must resolve", and exists iff the delimiter does. */
  lemma ResolvedFileNameSpec(message: string)
    ensures var name := ResolvedFileName(message);
      && (name.None? <==> forall i :: !OccursAt(message, ResolveDelimiter, i))
      && (name.Some? ==>
            && |name.value| <= |message| && name.value == message[..|name.value|]
            && OccursAt(message, ResolveDelimiter, |name.value|)
            && forall i :: 0 <= i < |name.value| ==> !OccursAt(message, ResolveDelimiter, i))
  {
    var at := IndexOf(message, ResolveDelimiter);
    if at != -1 {
      assert OccursAt(message, ResolveDelimiter, at);
    }
  }

  /** The items the message loop enqueues, and the fault that stopped it, if any. */
  datatype Resolves = Resolves(files: seq<DepotFile>, fault: Option<Fault>)

  /** The `foreach` over the messages at SyncBot.cs lines 60-71. */
  function ScanResolves(messages: seq<string>, change: int): (r: Resolves)
    ensures |r.files| <= |messages|
    ensures forall i :: 0 <= i < |r.files| ==> r.files[i].size == 0 && r.files[i].change == change
  {
    if messages == [] then Resolves([], None)
    else if !Contains(messages[0], ResolveMarker) then ScanResolves(messages[1..], change)
    else
      match ResolvedFileName(messages[0])
      case None => Resolves([], Some(NoResolveDelimiter(messages[0])))
      case Some(name) =>
        var rest := ScanResolves(messages[1..], change);
        Resolves([DepotFile(name, 0, change)] + rest.files, rest.fault)
  }

  /** The state `GatherFiles` reaches: the queue, the total size and the fault it caught, if any. */
  datatype Gathering = Gathering(queue: seq<DepotFile>, totalFileSize: int, fault: Option<Fault>)

  /**
    The try block of `GatherFiles` given what the dry-run `Run` returned (or the message it
    threw): a step that throws leaves the queue and the total where they were.
   */
  function Gather(query: Result<DryRun, string>): (g: Gathering)
    ensures query.Err? ==> g.queue == [] && g.fault.Some?
    ensures g.queue != [] ==> query.Ok? && query.value.records != []
    ensures g.fault.None? && query.Ok? ==> |g.queue| >= |query.value.records|
  {
    match query
    case Err(message) => Gathering([], 0, Some(ServiceError(message)))
    case Ok(dryRun) =>
      if |dryRun.records| == 0 then Gathering([], 0, None)
      else
        var first := dryRun.records[0];
        match LongField(first, "totalFileSize")
        case Err(e) => Gathering([], 0, Some(e))
        case Ok(total) =>
          match LongField(first, "change")
          case Err(e) => Gathering([], total, Some(e))
          case Ok(change) =>
            match Project(dryRun.records, change)
            case Err(e) => Gathering([], total, Some(e))
            case Ok(files) =>
              var resolves := ScanResolves(dryRun.messages, change);
              Gathering(files + resolves.files, total, resolves.fault)
  }

  /** The events the gather phase raises: the caught fault, then `Gathered` with the queue length. */
  function GatherEvents(g: Gathering): (events: seq<Event>)
    ensures |events| == (if g.fault.Some? then 2 else 1)
    ensures events[|events| - 1] == Gathered(|g.queue|, g.totalFileSize)
    ensures g.fault.Some? ==> events[0] == Error(g.fault.value)
  {
    (if g.fault.Some? then [Error(g.fault.value)] else []) + [Gathered(|g.queue|, g.totalFileSize)]
  }

  // ---------------------------------------------------------------------------
  // Sync phase

  /** `Math.Min(numThreads, filesToSync.Count)`. */
  function WorkerCount(numThreads: int, queued: nat): (n: int)
    ensures n <= numThreads && n <= queued
    ensures n == numThreads || n == queued
  {
    if numThreads <= queued then numThreads else queued
  }

  /**
    The workers, in id order, whose `CreatePerforceConnection` succeeds and which therefore
    enter the drain loop.
   */
  function LiveWorkers(numTasks: int, creds: Credentials, service: Service): (live: seq<int>)
    ensures forall id :: id in live <==> 0 <= id < numTasks && service.workerSession(creds, id)
    ensures forall i, j :: 0 <= i < j < |live| ==> live[i] < live[j]
    decreases numTasks
  {
    if numTasks <= 0 then []
    else
      var earlier := LiveWorkers(numTasks - 1, creds, service);
      assert forall i :: 0 <= i < |earlier| ==> earlier[i] in earlier;
      earlier + (if service.workerSession(creds, numTasks - 1) then [numTasks - 1] else [])
  }

  predicate AllConnected(numTasks: int, creds: Credentials, service: Service) {
    forall id :: 0 <= id < numTasks ==> service.workerSession(creds, id)
  }

  /** The items the pool dequeues: all of them when some worker runs, none otherwise. */
  function Drained(queue: seq<DepotFile>, live: seq<int>): seq<DepotFile> {
    if live == [] then [] else queue
  }

  /** The arguments of the real fetch of one item (SyncBot.cs line 102). */
  function FetchArgs(f: DepotFile): seq<string> {
    GetSyncArgsAt(f.name, f.change, false, false)
  }

  /** The two events one dequeued item gives rise to. */
  function ItemEvents(id: int, f: DepotFile, result: FetchResult): seq<Event> {
    [Syncing(id, f.name, f.size),
     if result.Fetched? then Synced(id, f.name, f.size) else Error(ServiceError(result.message))]
  }

  /** The outcome of each fetch when `items[k]` is the `k`-th item dequeued. */
  function FetchResults(items: seq<DepotFile>, fetch: (nat, seq<string>) -> FetchResult): (results: seq<FetchResult>)
    ensures |results| == |items|
  {
    seq(|items|, k requires 0 <= k < |items| => fetch(k, FetchArgs(items[k])))
  }

  /**
    The events of a drain in which `items[k]` is the `k`-th item dequeued, worker `ids[k]`
    dequeued it and its fetch ended with `results[k]`.
   */
  function DrainTrace(items: seq<DepotFile>, ids: seq<int>, results: seq<FetchResult>): (t: seq<Event>)
    requires |ids| == |items| == |results|
    ensures |t| == 2 * |items|
  {
    if items == [] then []
    else
      var n := |items| - 1;
      DrainTrace(items[..n], ids[..n], results[..n]) + ItemEvents(ids[n], items[n], results[n])
  }

  /** The outcome of one more fetch is appended to the outcomes so far. */
  lemma FetchResultsSnoc(items: seq<DepotFile>, f: DepotFile, fetch: (nat, seq<string>) -> FetchResult, result: FetchResult)
    requires result == fetch(|items|, FetchArgs(f))
    ensures FetchResults(items + [f], fetch) == FetchResults(items, fetch) + [result]
  {
  }

  /** Dequeuing one more item appends its two events. */
  lemma DrainTraceSnoc(items: seq<DepotFile>, ids: seq<int>, results: seq<FetchResult>,
                       f: DepotFile, id: int, result: FetchResult)
    requires |ids| == |items| == |results|
    ensures DrainTrace(items + [f], ids + [id], results + [result])
         == DrainTrace(items, ids, results) + ItemEvents(id, f, result)
  {
    assert (items + [f])[..|items|] == items;
    assert (ids + [id])[..|ids|] == ids;
    assert (results + [result])[..|results|] == results;
  }

  /**
    `SyncFiles` run on `queue`: which worker took each item (`ids`), what is left in the
    queue, the events raised and how the task ends.
   */
  predicate PoolRun(queue: seq<DepotFile>, numThreads: int, creds: Credentials, service: Service,
                    ids: seq<int>, remaining: seq<DepotFile>, events: seq<Event>, outcome: TaskOutcome): (b: bool)
    ensures b ==> |ids| + |remaining| == |queue| && |events| == 2 * |ids|
    ensures b ==> remaining == queue[|ids|..]
  {
    var numTasks := WorkerCount(numThreads, |queue|);
    if numTasks < 0 then
      outcome == Faulted(NegativeWorkerCount) && ids == [] && remaining == queue && events == []
    else
      var live := LiveWorkers(numTasks, creds, service);
      var taken := Drained(queue, live);
      && |ids| == |taken|
      && (forall k :: 0 <= k < |ids| ==> ids[k] in live)
      && remaining == queue[|taken|..]
      && events == DrainTrace(taken, ids, FetchResults(taken, service.fetch))
      && outcome == (if AllConnected(numTasks, creds, service) then Completed else Faulted(WorkerSessionsFailed))
  }

  /** `Sync(path)`: the gather phase, then (unless its connection failed) the pool on the gathered queue. */
  predicate SessionRun(path: string, numThreads: int, creds: Credentials, service: Service,
                       ids: seq<int>, remaining: seq<DepotFile>, events: seq<Event>, outcome: TaskOutcome): (b: bool)
    ensures b ==> (events == [] <==> !service.gatherSession(creds))
    ensures b && !service.gatherSession(creds) ==> outcome == Faulted(GatherSessionFailed)
  {
    if !service.gatherSession(creds) then
      outcome == Faulted(GatherSessionFailed) && ids == [] && remaining == [] && events == []
    else
      var g := Gather(service.run(GetSyncArgs(path, true, false)));
      var prefix := GatherEvents(g);
      && |prefix| <= |events|
      && events[..|prefix|] == prefix
      && PoolRun(g.queue, numThreads, creds, service, ids, remaining, events[|prefix|..], outcome)
  }
}
