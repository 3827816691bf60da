/**
  The command-line front end (SyncBotCLI/Program.cs): `ProcessArguments` scans the
  arguments into five static fields, and `Main` checks that all five were given, runs one
  `Sync` and reports what happened on the console.
 */
module SyncBotCli {
  import opened Results
  import opened Text
  import opened SyncBotModel
  import opened SyncBotCore

  /** The five static fields of `Program`; `None` stands for the `null` they start with. */
  datatype Settings = Settings(user: Option<string>, password: Option<string>, workspace: Option<string>,
                               server: Option<string>, path: Option<string>)

  const Unset: Settings := Settings(None, None, None, None, None)

  /** The four options that take a value: user, password, workspace and server. */
  predicate IsFlag(arg: string) {
    arg == "-u" || arg == "-p" || arg == "-w" || arg == "-s"
  }

  /** An argument that sets the path to sync. */
  predicate IsDepotPath(arg: string) {
    StartsWith(arg, "//")
  }

  /** The field an option sets. */
  function FlagValue(s: Settings, flag: string): Option<string>
    requires IsFlag(flag)
  {
    if flag == "-u" then s.user
    else if flag == "-p" then s.password
    else if flag == "-w" then s.workspace
    else s.server
  }

  /** The option `flag` takes `value`; the other options and the path keep theirs. */
  function Assign(s: Settings, flag: string, value: string): (r: Settings)
    requires IsFlag(flag)
    ensures FlagValue(r, flag) == Some(value)
    ensures forall other :: IsFlag(other) && other != flag ==> FlagValue(r, other) == FlagValue(s, other)
    ensures r.path == s.path
  {
    if flag == "-u" then s.(user := Some(value))
    else if flag == "-p" then s.(password := Some(value))
    else if flag == "-w" then s.(workspace := Some(value))
    else s.(server := Some(value))
  }

  /**
    How the scan ends: with the settings it reached, or with a flag that was the last argument,
    whose `args[i]` after `i++` indexes past the end of the array.
   */
  datatype ScanResult = Scanned(settings: Settings) | DanglingFlag(flag: string, settings: Settings)

  /**
    The `for` loop of `ProcessArguments`, from settings `s`: an option consumes the argument
    after it, whatever that is; a "//" argument sets the path; anything else is skipped.
   */
  function Scan(args: seq<string>, s: Settings): (r: ScanResult)
    ensures r.settings.path == s.path
         || (r.settings.path.Some? && r.settings.path.value in args && IsDepotPath(r.settings.path.value))
    decreases |args|
  {
    if args == [] then Scanned(s)
    else if IsFlag(args[0]) then
      if |args| == 1 then DanglingFlag(args[0], s)
      else Scan(args[2..], Assign(s, args[0], args[1]))
    else if IsDepotPath(args[0]) then Scan(args[1..], s.(path := Some(args[0])))
    else Scan(args[1..], s)
  }

  /** All five values are present: the check at Program.cs line 22 lets `Main` go on. */
  predicate Complete(s: Settings) {
    s.user.Some? && s.password.Some? && s.workspace.Some? && s.server.Some? && s.path.Some?
  }

  /** What reaches the console. `Synced` has no handler, so it prints nothing. */
  datatype Line =
    | Usage
    | GatheredLine(totalFileCount: int, totalFileSize: int)
    | SyncingLine(id: int, name: string)
    | ErrorLine(error: Fault)
    | FaultMessage(fault: TaskFault)
    | Finished

  /** How the process ends: normally, or with the unhandled exception of a dangling flag. */
  datatype Exit = Normal | Crashed

  /** The line a handler prints for one event, if any. */
  function EventLines(e: Event): (lines: seq<Line>)
    ensures |lines| <= 1
    ensures lines == [] <==> e.Synced?
  {
    match e
    case Gathered(count, size) => [GatheredLine(count, size)]
    case Syncing(id, name, _) => [SyncingLine(id, name)]
    case Synced(_, _, _) => []
    case Error(error) => [ErrorLine(error)]
  }

  /** The console output of a trace of events, in order. */
  function Display(events: seq<Event>): (lines: seq<Line>)
    ensures |lines| <= |events|
    ensures forall i :: 0 <= i < |lines| ==> lines[i].GatheredLine? || lines[i].SyncingLine? || lines[i].ErrorLine?
  {
    if events == [] then [] else EventLines(events[0]) + Display(events[1..])
  }

  /** The message `Main` prints for a faulted task, before "Finished.". */
  function OutcomeLines(outcome: TaskOutcome): seq<Line> {
    if outcome.Faulted? then [FaultMessage(outcome.fault)] else []
  }

  /** The `Program` class: its static fields and its two static methods. */
  class Program {
    var user: Option<string>
    var password: Option<string>
    var workspace: Option<string>
    var server: Option<string>
    var path: Option<string>

    function Current(): Settings
      reads this
    {
      Settings(user, password, workspace, server, path)
    }

    /** The static fields as the runtime initializes them: all `null`. */
    constructor ()
      ensures Current() == Unset
    {
      user, password, workspace, server, path := None, None, None, None, None;
    }

    /**
      `ProcessArguments(args)`: returns false where the source throws, a flag given as the
      last argument; the fields then hold what was assigned before it.
     */
    method ProcessArguments(args: seq<string>) returns (ok: bool)
      modifies this
      ensures var r := Scan(args, old(Current()));
        ok == r.Scanned? && Current() == r.settings
    {
      ok := true;
      var i := 0;
      while i < |args|
        invariant 0 <= i <= |args|
        invariant Scan(args[i..], Current()) == Scan(args, old(Current()))
      {
        var arg := args[i];
        assert args[i..][1..] == args[i + 1..];
        if arg == "-u" {
          i := i + 1;
          if i == |args| {
            ok := false;
            return;
          }
          assert args[i - 1..][2..] == args[i + 1..];
          user := Some(args[i]);
        } else if arg == "-p" {
          i := i + 1;
          if i == |args| {
            ok := false;
            return;
          }
          assert args[i - 1..][2..] == args[i + 1..];
          password := Some(args[i]);
        } else if arg == "-w" {
          i := i + 1;
          if i == |args| {
            ok := false;
            return;
          }
          assert args[i - 1..][2..] == args[i + 1..];
          workspace := Some(args[i]);
        } else if arg == "-s" {
          i := i + 1;
          if i == |args| {
            ok := false;
            return;
          }
          assert args[i - 1..][2..] == args[i + 1..];
          server := Some(args[i]);
        } else if IsDepotPath(arg) {
          path := Some(arg);
        }
        i := i + 1;
      }
    }

    /**
      `Main(args)`, with `Environment.ProcessorCount` and the Perforce service passed in: a
      dangling flag crashes the process before anything is printed; a missing value prints the
      usage line and creates no worker; otherwise one `Sync` runs, its events are printed as
      they are raised, a faulted task adds its message, and "Finished." is printed last either way.
     */
    method Run(args: seq<string>, processorCount: int, service: Service) returns (console: seq<Line>, exit: Exit)
      modifies this
      ensures Current() == Scan(args, old(Current())).settings
      ensures var r := Scan(args, old(Current()));
        && (r.DanglingFlag? ==> exit == Crashed && console == [])
        && (r.Scanned? && !Complete(r.settings) ==> exit == Normal && console == [Usage])
        && (r.Scanned? && Complete(r.settings) ==>
              var s := r.settings;
              && exit == Normal
              && exists ids, remaining, events, outcome ::
                   && SessionRun(s.path.value, processorCount,
                                 Credentials(s.user.value, s.password.value, s.workspace.value, s.server.value),
                                 service, ids, remaining, events, outcome)
                   && console == Display(events) + OutcomeLines(outcome) + [Finished])
    {
      var ok := ProcessArguments(args);
      if !ok {
        console, exit := [], Crashed;
        return;
      }
      if user.None? || password.None? || workspace.None? || server.None? || path.None? {
        console, exit := [Usage], Normal;
        return;
      }
      var worker := new SyncWorker(processorCount);
      worker.InitializePerforce(user.value, password.value, workspace.value, server.value);
      var outcome, ids := worker.Sync(path.value, service);
      assert worker.trace[0..] == worker.trace;
      console := Display(worker.trace) + OutcomeLines(outcome) + [Finished];
      exit := Normal;
    }
  }
}
