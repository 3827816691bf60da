/**
  What the command-line scanner and `Main` promise, proved about `SyncBotCli.Scan` and
  `SyncBotCli.Display`.
 */
module SyncBotCliProperties {
  import opened Results
  import opened Text
  import opened SyncBotModel
  import opened SyncBotCli

  /** A scan that ends normally on `pre` continues on `post` from the settings it reached. */
  lemma {:induction false} ScanThenRest(pre: seq<string>, post: seq<string>, s: Settings)
    requires Scan(pre, s).Scanned?
    ensures Scan(pre + post, s) == Scan(post, Scan(pre, s).settings)
  {
    if pre != [] {
      assert (pre + post)[0] == pre[0];
      if IsFlag(pre[0]) {
        assert (pre + post)[1] == pre[1];
        assert (pre + post)[2..] == pre[2..] + post;
        ScanThenRest(pre[2..], post, Assign(s, pre[0], pre[1]));
      } else if IsDepotPath(pre[0]) {
        assert (pre + post)[1..] == pre[1..] + post;
        ScanThenRest(pre[1..], post, s.(path := Some(pre[0])));
      } else {
        assert (pre + post)[1..] == pre[1..] + post;
        ScanThenRest(pre[1..], post, s);
      }
    } else {
      assert pre + post == post;
    }
  }

  /** An option takes the next argument as its value, even one that is itself an option or a "//" path. */
  lemma FlagTakesNext(flag: string, value: string, rest: seq<string>, s: Settings)
    requires IsFlag(flag)
    ensures Scan([flag, value] + rest, s) == Scan(rest, Assign(s, flag, value))
  {
    assert ([flag, value] + rest)[2..] == rest;
  }

  /** An argument that is neither an option nor a "//" path changes nothing. */
  lemma IgnoredArgument(arg: string, rest: seq<string>, s: Settings)
    requires !IsFlag(arg) && !IsDepotPath(arg)
    ensures Scan([arg] + rest, s) == Scan(rest, s)
  {
    assert ([arg] + rest)[1..] == rest;
  }

  /**
    No argument that the scan reads as an option is `flag`. An argument an option consumes as
    its value is not read as an option, and an option given last only ends the scan.
   */
  predicate NeverSetsFlag(args: seq<string>, flag: string)
    decreases |args|
  {
    if args == [] then true
    else if IsFlag(args[0]) then |args| == 1 || (args[0] != flag && NeverSetsFlag(args[2..], flag))
    else NeverSetsFlag(args[1..], flag)
  }

  /** No argument that the scan reads, outside the values options consume, starts with "//". */
  predicate NeverSetsPath(args: seq<string>)
    decreases |args|
  {
    if args == [] then true
    else if IsFlag(args[0]) then |args| == 1 || NeverSetsPath(args[2..])
    else !IsDepotPath(args[0]) && NeverSetsPath(args[1..])
  }

  /** Arguments that the scan never reads as option `flag` leave its value as it was. */
  lemma {:induction false} ScanKeepsFlag(args: seq<string>, s: Settings, flag: string)
    requires IsFlag(flag) && NeverSetsFlag(args, flag)
    ensures FlagValue(Scan(args, s).settings, flag) == FlagValue(s, flag)
  {
    if args != [] {
      if IsFlag(args[0]) {
        if |args| > 1 {
          ScanKeepsFlag(args[2..], Assign(s, args[0], args[1]), flag);
        }
      } else if IsDepotPath(args[0]) {
        ScanKeepsFlag(args[1..], s.(path := Some(args[0])), flag);
      } else {
        ScanKeepsFlag(args[1..], s, flag);
      }
    }
  }

  /** Arguments among which the scan reads no "//" path leave the path as it was. */
  lemma {:induction false} ScanKeepsPath(args: seq<string>, s: Settings)
    requires NeverSetsPath(args)
    ensures Scan(args, s).settings.path == s.path
  {
    if args != [] {
      if IsFlag(args[0]) {
        if |args| > 1 {
          ScanKeepsPath(args[2..], Assign(s, args[0], args[1]));
        }
      } else {
        ScanKeepsPath(args[1..], s);
      }
    }
  }

  /** Arguments that do not spell option `flag` at all never set it. */
  lemma {:induction false} AbsentFlagNeverSet(args: seq<string>, flag: string)
    requires flag !in args
    ensures NeverSetsFlag(args, flag)
  {
    if args != [] {
      if IsFlag(args[0]) {
        if |args| > 1 {
          assert forall a :: a in args[2..] ==> a in args;
          AbsentFlagNeverSet(args[2..], flag);
        }
      } else {
        AbsentFlagNeverSet(args[1..], flag);
      }
    }
  }

  /** Arguments none of which starts with "//" never set the path. */
  lemma {:induction false} NoDepotPathNeverSet(args: seq<string>)
    requires forall i :: 0 <= i < |args| ==> !IsDepotPath(args[i])
    ensures NeverSetsPath(args)
  {
    if args != [] {
      if IsFlag(args[0]) {
        if |args| > 1 {
          NoDepotPathNeverSet(args[2..]);
        }
      } else {
        NoDepotPathNeverSet(args[1..]);
      }
    }
  }

  /** The last occurrence of an option that the scan reads as an option sets its value. */
  lemma LastFlagWins(pre: seq<string>, flag: string, value: string, post: seq<string>, s: Settings)
    requires IsFlag(flag) && NeverSetsFlag(post, flag)
    requires Scan(pre, s).Scanned?
    ensures FlagValue(Scan(pre + [flag, value] + post, s).settings, flag) == Some(value)
  {
    assert pre + [flag, value] + post == pre + ([flag, value] + post);
    ScanThenRest(pre, [flag, value] + post, s);
    FlagTakesNext(flag, value, post, Scan(pre, s).settings);
    ScanKeepsFlag(post, Assign(Scan(pre, s).settings, flag, value), flag);
  }

  /** The last "//" argument the scan reads as a path sets the path. */
  lemma LastPathWins(pre: seq<string>, path: string, post: seq<string>, s: Settings)
    requires IsDepotPath(path)
    requires NeverSetsPath(post)
    requires Scan(pre, s).Scanned?
    ensures Scan(pre + [path] + post, s).settings.path == Some(path)
  {
    assert pre + [path] + post == pre + ([path] + post);
    ScanThenRest(pre, [path] + post, s);
    var t := Scan(pre, s).settings;
    PathTakesEffect(path, post, t);
    ScanKeepsPath(post, t.(path := Some(path)));
  }

  /**
    An argument an option consumes is its value, whatever it spells: `-u alice -p -u` keeps
    user "alice", and `//a -u //b` keeps the path "//a".
   */
  lemma ConsumedArgumentIsValue()
    ensures var r := Scan(["-u", "alice", "-p", "-u"], Unset);
      r.Scanned? && r.settings.user == Some("alice") && r.settings.password == Some("-u")
    ensures var r := Scan(["//a", "-u", "//b"], Unset);
      r.Scanned? && r.settings.path == Some("//a") && r.settings.user == Some("//b")
  {
    var args := ["-u", "alice", "-p", "-u"];
    assert args[2..][2..] == [];
    var args2 := ["//a", "-u", "//b"];
    assert StartsWith("//a", "//");
    assert args2[1..][2..] == [];
  }

  /** A "//" argument sets the path. */
  lemma PathTakesEffect(path: string, rest: seq<string>, s: Settings)
    requires IsDepotPath(path)
    ensures Scan([path] + rest, s) == Scan(rest, s.(path := Some(path)))
  {
    assert path[0] == '/';
    assert ([path] + rest)[1..] == rest;
  }

  /** An option given as the last argument makes the scan fail, after what came before it. */
  lemma TrailingFlagFails(pre: seq<string>, flag: string, s: Settings)
    requires IsFlag(flag)
    requires Scan(pre, s).Scanned?
    ensures Scan(pre + [flag], s) == DanglingFlag(flag, Scan(pre, s).settings)
  {
    ScanThenRest(pre, [flag], s);
  }

  /** The scan fails only on an option that is the last argument. */
  lemma {:induction false} DanglingIsLast(args: seq<string>, s: Settings)
    requires Scan(args, s).DanglingFlag?
    ensures args != [] && IsFlag(args[|args| - 1]) && Scan(args, s).flag == args[|args| - 1]
  {
    if IsFlag(args[0]) {
      if |args| > 1 {
        DanglingIsLast(args[2..], Assign(s, args[0], args[1]));
      }
    } else if IsDepotPath(args[0]) {
      DanglingIsLast(args[1..], s.(path := Some(args[0])));
    } else {
      DanglingIsLast(args[1..], s);
    }
  }

  /** A full command line sets all five values, so `Main` goes on to sync. */
  lemma FullCommandLine()
    ensures var r := Scan(["-u", "alice", "-p", "secret", "-w", "ws", "-s", "perforce:1666", "//depot/main/..."], Unset);
      && r == Scanned(Settings(Some("alice"), Some("secret"), Some("ws"), Some("perforce:1666"), Some("//depot/main/...")))
      && Complete(r.settings)
  {
    var args := ["-u", "alice", "-p", "secret", "-w", "ws", "-s", "perforce:1666", "//depot/main/..."];
    assert args[2..][2..][2..][2..] == ["//depot/main/..."];
    assert StartsWith("//depot/main/...", "//");
  }

  /**
    When the scan reads no "//" argument as a path, the path stays unset and the check at
    line 22 fails; with a scan that ends normally, `Program.Run` then prints only the usage line.
   */
  lemma MissingPathIsIncomplete(args: seq<string>)
    requires NeverSetsPath(args)
    ensures Scan(args, Unset).settings.path == None
    ensures !Complete(Scan(args, Unset).settings)
  {
    ScanKeepsPath(args, Unset);
  }

  /** The console output of consecutive traces is the concatenation of theirs. */
  lemma {:induction false} DisplayAppend(a: seq<Event>, b: seq<Event>)
    ensures Display(a + b) == Display(a) + Display(b)
  {
    if a != [] {
      assert (a + b)[0] == a[0];
      assert (a + b)[1..] == a[1..] + b;
      DisplayAppend(a[1..], b);
    } else {
      assert a + b == b;
    }
  }
}
