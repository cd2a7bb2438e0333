/** The Cargo commands a validation job plans: which manifest each selects, fetches first and then checks. */
module CargoChecks {
  import opened Basics
  import opened Wrappers

  type Argv = seq<string>

  const MANIFEST_FLAG := "--manifest-path"
  const MANIFEST_PREFIX := "--manifest-path="
  const NEEDS_PATH := "--manifest-path requires a path"
  const ONLY_ONE := "only one --manifest-path per Cargo command"

  predicate StartsWith(s: string, prefix: string) {
    prefix <= s
  }

  // ----- Selecting Cargo's manifest option ------------------------------------------------

  /** The outcome of scanning `args` when `found` was selected before them. */
  function ManifestFrom(args: seq<string>, found: Option<string>): Result<Option<string>, string>
    decreases |args|, 0
  {
    if args == [] || args[0] == "--" then Success(found)
    else if args[0] == MANIFEST_FLAG then
      if |args| == 1 || StartsWith(args[1], "-") then Failure(NEEDS_PATH)
      else Selected(args[1], args[2..], found)
    else if StartsWith(args[0], MANIFEST_PREFIX) then
      Selected(args[0][|MANIFEST_PREFIX|..], args[1..], found)
    else ManifestFrom(args[1..], found)
  }

  /** One option value was read; the rest of the arguments still has to be scanned. */
  function Selected(value: string, rest: seq<string>, found: Option<string>): Result<Option<string>, string>
    decreases |rest|, 1
  {
    if value == "" then Failure(NEEDS_PATH)
    else if found.Some? then Failure(ONLY_ONE)
    else ManifestFrom(rest, Some(value))
  }

  function ManifestOf(argv: Argv): Result<Option<string>, string>
    requires |argv| >= 2
  {
    ManifestFrom(argv[2..], None)
  }

  method CargoManifest(argv: Argv) returns (r: Result<Option<string>, string>)
    requires |argv| >= 2
    ensures r == ManifestOf(argv)
  {
    var manifest: Option<string> := None;
    var arguments := argv[2..];
    while arguments != []
      invariant ManifestFrom(arguments, manifest) == ManifestOf(argv)
      decreases |arguments|
    {
      var argument := arguments[0];
      arguments := arguments[1..];
      var value;
      if argument == "--" {
        return Success(manifest);
      } else if argument == MANIFEST_FLAG {
        if arguments == [] || StartsWith(arguments[0], "-") {
          return Failure(NEEDS_PATH);
        }
        value := arguments[0];
        arguments := arguments[1..];
      } else if StartsWith(argument, MANIFEST_PREFIX) {
        value := argument[|MANIFEST_PREFIX|..];
      } else {
        continue;
      }
      if value == "" {
        return Failure(NEEDS_PATH);
      }
      if manifest.Some? {
        return Failure(ONLY_ONE);
      }
      manifest := Some(value);
    }
    return Success(manifest);
  }

  // ----- Which option it selects ----------------------------------------------------------

  predicate IsOption(argument: string) {
    argument == "--manifest-path" || "--manifest-path=" <= argument
  }

  /** There is a manifest option at position `i`, before the delimiter. */
  predicate OptionAt(args: seq<string>, i: int) {
    0 <= i < |args| && IsOption(args[i]) && forall k :: 0 <= k <= i ==> args[k] != "--"
  }

  predicate NoOption(args: seq<string>) {
    forall i :: 0 <= i < |args| ==> !OptionAt(args, i)
  }

  predicate OnlyOption(args: seq<string>, i: int) {
    OptionAt(args, i) && forall j :: 0 <= j < |args| && OptionAt(args, j) ==> j == i
  }

  /** The nonempty path an option names: its own remainder, or the next argument unless that is an option. */
  function ValueAt(args: seq<string>, i: int): Option<string>
    requires 0 <= i < |args|
  {
    if args[i] == "--manifest-path" then
      if i + 1 < |args| && args[i + 1] != "" && args[i + 1][0] != '-' then Some(args[i + 1]) else None
    else if "--manifest-path=" <= args[i] && |args[i]| > 16 then Some(args[i][16..])
    else None
  }

  /** There is one option, and it names `path`. */
  ghost predicate Names(args: seq<string>, path: string) {
    exists i :: 0 <= i < |args| && OnlyOption(args, i) && ValueAt(args, i) == Some(path)
  }

  lemma DashFirst(argument: string)
    ensures StartsWith(argument, "-") <==> argument != "" && argument[0] == '-'
    ensures IsOption(argument) || argument == "--" ==> argument != "" && argument[0] == '-'
    ensures argument == "--" ==> !IsOption(argument)
    ensures argument == MANIFEST_FLAG ==> !StartsWith(argument, MANIFEST_PREFIX)
  {
    assert MANIFEST_FLAG[0] == '-' && MANIFEST_PREFIX[0] == '-';
    assert |MANIFEST_FLAG| == 15 && |MANIFEST_PREFIX| == 16;
  }

  /** Dropping arguments in front that are neither options nor the delimiter shifts the options. */
  lemma OptionsShift(args: seq<string>, n: nat, i: int)
    requires n <= |args| && forall k :: 0 <= k < n ==> args[k] != "--"
    ensures OptionAt(args[n..], i) ==> OptionAt(args, i + n)
    ensures i >= n && OptionAt(args, i) ==> OptionAt(args[n..], i - n)
  {
    if OptionAt(args[n..], i) {
      forall k | 0 <= k <= i + n
        ensures args[k] != "--"
      {
        if k >= n {
          assert args[n..][k - n] == args[k];
        }
      }
    }
    if i >= n && OptionAt(args, i) {
      forall k | 0 <= k <= i - n
        ensures args[n..][k] != "--"
      {
        assert args[n..][k] == args[k + n];
      }
    }
  }

  lemma NoOptionShift(args: seq<string>, n: nat)
    requires n <= |args| && forall k :: 0 <= k < n ==> args[k] != "--" && !IsOption(args[k])
    ensures NoOption(args) <==> NoOption(args[n..])
  {
    if NoOption(args) {
      forall i | 0 <= i < |args[n..]|
        ensures !OptionAt(args[n..], i)
      {
        OptionsShift(args, n, i);
      }
    }
    if NoOption(args[n..]) {
      forall i | 0 <= i < |args|
        ensures !OptionAt(args, i)
      {
        if i >= n {
          OptionsShift(args, n, i);
        }
      }
    }
  }

  lemma {:induction false} NoOptionSelectsNothing(args: seq<string>, found: Option<string>)
    ensures NoOption(args) ==> ManifestFrom(args, found) == Success(found)
    ensures !NoOption(args) && found.Some? ==> ManifestFrom(args, found).Failure?
    decreases |args|
  {
    if args != [] && args[0] != "--" {
      DashFirst(args[0]);
      if IsOption(args[0]) {
        assert OptionAt(args, 0);
      } else {
        NoOptionShift(args, 1);
        NoOptionSelectsNothing(args[1..], found);
      }
    }
  }

  /** Where the first option is, its value decides; everything after it must be free of options. */
  lemma FirstOption(args: seq<string>)
    requires args != [] && IsOption(args[0]) && args[0] != "--"
    ensures ManifestFrom(args, None).Success? <==> OnlyOption(args, 0) && ValueAt(args, 0).Some?
    ensures ManifestFrom(args, None).Success? ==> ManifestFrom(args, None) == Success(ValueAt(args, 0))
  {
    assert OptionAt(args, 0);
    OnlyFirst(args);
    DashFirst(args[0]);
    if args[0] == MANIFEST_FLAG {
      if |args| > 1 {
        DashFirst(args[1]);
        if !StartsWith(args[1], "-") {
          NoOptionShift(args[1..], 1);
          assert args[1..][1..] == args[2..];
          NoOptionSelectsNothing(args[2..], Some(args[1]));
        }
      }
    } else {
      NoOptionSelectsNothing(args[1..], Some(args[0][|MANIFEST_PREFIX|..]));
    }
  }

  lemma OnlyFirst(args: seq<string>)
    requires OptionAt(args, 0)
    ensures OnlyOption(args, 0) <==> NoOption(args[1..])
  {
    if OnlyOption(args, 0) {
      forall i | 0 <= i < |args[1..]|
        ensures !OptionAt(args[1..], i)
      {
        OptionsShift(args, 1, i);
      }
    }
    if NoOption(args[1..]) {
      forall j | 0 <= j < |args| && OptionAt(args, j)
        ensures j == 0
      {
        OptionsShift(args, 1, j);
      }
    }
  }

  /** The scan selects `path` exactly when one option stands before the delimiter and names it, selects
      nothing exactly when none does, and is an error in every other case. */
  lemma {:induction false} ScanSelectsTheOption(args: seq<string>, path: string)
    ensures ManifestFrom(args, None) == Success(None) <==> NoOption(args)
    ensures ManifestFrom(args, None) == Success(Some(path)) <==>
            Names(args, path)
    decreases |args|
  {
    NoOptionSelectsNothing(args, None);
    if args != [] && args[0] != "--" {
      if IsOption(args[0]) {
        assert OptionAt(args, 0);
        FirstOption(args);
      } else {
        DashFirst(args[0]);
        ScanSelectsTheOption(args[1..], path);
        NoOptionShift(args, 1);
        OnlyOptionShifts(args, path);
      }
    }
  }

  lemma OnlyOptionShifts(args: seq<string>, path: string)
    requires args != [] && args[0] != "--" && !IsOption(args[0])
    ensures Names(args, path) <==> Names(args[1..], path)
  {
    forall i | 0 <= i < |args[1..]|
      ensures OnlyOption(args[1..], i) <==> OnlyOption(args, i + 1)
      ensures ValueAt(args[1..], i) == ValueAt(args, i + 1)
    {
      OnlyOptionShift(args, i);
    }
    if Names(args, path) {
      var i :| 0 <= i < |args| && OnlyOption(args, i) && ValueAt(args, i) == Some(path);
      assert 0 <= i - 1 < |args[1..]| && OnlyOption(args[1..], i - 1);
    }
  }

  lemma OnlyOptionShift(args: seq<string>, i: nat)
    requires args != [] && args[0] != "--" && !IsOption(args[0]) && i < |args| - 1
    ensures OnlyOption(args[1..], i) <==> OnlyOption(args, i + 1)
  {
    forall j: int
      ensures OptionAt(args[1..], j) <==> j + 1 >= 1 && OptionAt(args, j + 1)
    {
      OptionsShift(args, 1, j);
      OptionsShift(args, 1, j + 1);
    }
    if OnlyOption(args[1..], i) {
      forall j | 0 <= j < |args| && OptionAt(args, j)
        ensures j == i + 1
      {
        assert OptionAt(args[1..], j - 1);
      }
    }
  }

  // ----- The plan ------------------------------------------------------------------------

  datatype Command = Command(argv: Argv, network: bool)

  /** What `validate_task` demands of one validator command. */
  predicate ValidCommand(argv: Argv) {
    && 2 <= |argv| <= 64
    && argv[0] == "cargo"
    && argv[1] in {"build", "check", "test", "clippy", "fmt"}
    && (argv[1] == "fmt" ==> "--check" in argv)
    && ManifestOf(argv).Success?
  }

  type CargoArgv = argv: Argv | ValidCommand(argv) witness ["cargo", "build"]

  /** A command can be planned exactly when it is a short one of these five, formatting only as a check, that
      names no manifest or one. */
  lemma ValidCommandMeans(argv: Argv)
    ensures ValidCommand(argv) <==>
      && 2 <= |argv| <= 64 && argv[0] == "cargo"
      && (argv[1] == "build" || argv[1] == "check" || argv[1] == "test" || argv[1] == "clippy"
          || (argv[1] == "fmt" && exists i :: 2 <= i < |argv| && argv[i] == "--check"))
      && (NoOption(argv[2..]) || exists path :: Names(argv[2..], path))
  {
    if |argv| >= 2 {
      ManifestSucceeds(argv[2..]);
    }
  }

  lemma ManifestSucceeds(args: seq<string>)
    ensures ManifestFrom(args, None).Success? <==> NoOption(args) || exists path :: Names(args, path)
  {
    var r := ManifestFrom(args, None);
    ScanSelectsTheOption(args, if r.Success? && r.value.Some? then r.value.value else "");
    if path :| Names(args, path) {
      ScanSelectsTheOption(args, path);
    }
  }

  predicate IsFmt(argv: Argv)
    requires |argv| >= 2
  {
    argv[1] == "fmt"
  }

  function FetchArgv(manifest: Option<string>): Argv {
    ["/usr/bin/cargo", "fetch", "--locked"] +
    if manifest.Some? then [MANIFEST_PREFIX + manifest.value] else []
  }

  function CheckArgv(argv: Argv): Argv
    requires |argv| >= 2
  {
    ["/usr/bin/cargo", argv[1]] + (if IsFmt(argv) then [] else ["--locked", "--offline"]) + argv[2..]
  }

  function Checks(commands: seq<CargoArgv>): seq<Command>
  {
    seq(|commands|, i requires 0 <= i < |commands| => Command(CheckArgv(commands[i]), false))
  }

  /** The manifests of the commands that need dependencies, in first-use order. */
  function Manifests(commands: seq<CargoArgv>): seq<Option<string>>
  {
    if commands == [] then []
    else
      var n := |commands| - 1;
      var earlier := Manifests(commands[..n]);
      var manifest := ManifestOf(commands[n]).value;
      if IsFmt(commands[n]) || manifest in earlier then earlier else earlier + [manifest]
  }

  function Fetches(commands: seq<CargoArgv>): seq<Command>
  {
    var ms := Manifests(commands);
    seq(|ms|, i requires 0 <= i < |ms| => Command(FetchArgv(ms[i]), true))
  }

  function Plan(commands: seq<CargoArgv>): seq<Command>
  {
    Fetches(commands) + Checks(commands)
  }

  method PlanCommands(tasks: seq<CargoArgv>) returns (commands: seq<Command>)
    ensures commands == Plan(tasks)
  {
    commands := [];
    var fetched: set<Option<string>> := {};
    for i := 0 to |tasks|
      invariant commands == Fetches(tasks[..i])
      invariant fetched == set m | m in Manifests(tasks[..i])
    {
      assert tasks[..i + 1][..i] == tasks[..i];
      var argv := tasks[i];
      if argv[1] == "fmt" {
        continue;
      }
      var manifest := CargoManifest(argv);
      if manifest.value !in fetched {
        var fetch := ["/usr/bin/cargo", "fetch", "--locked"];
        if manifest.value.Some? {
          fetch := fetch + [MANIFEST_PREFIX + manifest.value.value];
        }
        commands := commands + [Command(fetch, true)];
        assert fetch == FetchArgv(manifest.value);
        assert commands == Fetches(tasks[..i + 1]);
        fetched := fetched + {manifest.value};
      }
    }
    assert tasks[..|tasks|] == tasks;
    ghost var fetches := commands;
    for i := 0 to |tasks|
      invariant commands == fetches + Checks(tasks)[..i]
    {
      var argv := tasks[i];
      var enforced := if argv[1] == "fmt" then [] else ["--locked", "--offline"];
      commands := commands + [Command(["/usr/bin/cargo", argv[1]] + enforced + argv[2..], false)];
    }
  }

  // ----- What the plan promises -----------------------------------------------------------

  predicate Selects(argv: Argv, manifest: Option<string>) {
    |argv| >= 2 && ManifestOf(argv) == Success(manifest)
  }

  /** Some command other than `cargo fmt` works on this manifest. */
  predicate InUse(commands: seq<CargoArgv>, manifest: Option<string>) {
    exists i :: 0 <= i < |commands| && !IsFmt(commands[i]) && Selects(commands[i], manifest)
  }

  /** Exactly the manifests of the non-fmt commands, each once. */
  lemma {:induction false} ManifestsAreDistinct(commands: seq<CargoArgv>)
    ensures NoDuplicates(Manifests(commands))
    ensures forall m :: m in Manifests(commands) <==> InUse(commands, m)
  {
    if commands != [] {
      var n := |commands| - 1;
      ManifestsAreDistinct(commands[..n]);
      var last := ManifestOf(commands[n]).value;
      forall m
        ensures InUse(commands, m) <==> InUse(commands[..n], m) || (!IsFmt(commands[n]) && m == last)
      {
        if !IsFmt(commands[n]) && m == last {
          assert Selects(commands[n], m);
        }
        if InUse(commands[..n], m) {
          var i :| 0 <= i < n && !IsFmt(commands[..n][i]) && Selects(commands[..n][i], m);
          assert Selects(commands[i], m);
        }
        if InUse(commands, m) {
          var i :| 0 <= i < |commands| && !IsFmt(commands[i]) && Selects(commands[i], m);
          assert i < n ==> Selects(commands[..n][i], m);
        }
      }
    }
  }

  /** An argument that is not the manifest option leaves the scan where it was. */
  lemma PlainIsSkipped(argument: string, rest: seq<string>, found: Option<string>)
    requires argument != "--" && argument != MANIFEST_FLAG && !StartsWith(argument, MANIFEST_PREFIX)
    ensures ManifestFrom([argument] + rest, found) == ManifestFrom(rest, found)
  {
    assert ([argument] + rest)[1..] == rest;
  }

  /** The options the runner inserts are invisible to the manifest scan. */
  lemma RewriteKeepsManifest(argv: Argv)
    requires |argv| >= 2
    ensures ManifestOf(CheckArgv(argv)) == ManifestOf(argv)
  {
    var rewritten := CheckArgv(argv)[2..];
    if IsFmt(argv) {
      assert rewritten == argv[2..];
    } else {
      assert rewritten == ["--locked"] + (["--offline"] + argv[2..]);
      PlainIsSkipped("--locked", ["--offline"] + argv[2..], None);
      PlainIsSkipped("--offline", argv[2..], None);
    }
  }

  /** A selected manifest is never empty, so the fetch built from it selects it again. */
  lemma {:induction false} SelectedIsNonempty(args: seq<string>, found: Option<string>)
    requires found.Some? ==> found.value != ""
    ensures var r := ManifestFrom(args, found); r.Success? && r.value.Some? ==> r.value.value != ""
    decreases |args|
  {
    if args == [] || args[0] == "--" {
    } else if args[0] == MANIFEST_FLAG {
      if |args| > 1 && args[1] != "" {
        SelectedIsNonempty(args[2..], Some(args[1]));
      }
    } else if StartsWith(args[0], MANIFEST_PREFIX) {
      if args[0][|MANIFEST_PREFIX|..] != "" {
        SelectedIsNonempty(args[1..], Some(args[0][|MANIFEST_PREFIX|..]));
      }
    } else {
      SelectedIsNonempty(args[1..], found);
    }
  }

  lemma FetchKeepsManifest(manifest: Option<string>)
    requires manifest.Some? ==> manifest.value != ""
    ensures Selects(FetchArgv(manifest), manifest)
  {
    if manifest.Some? {
      var option := MANIFEST_PREFIX + manifest.value;
      assert FetchArgv(manifest)[2..] == ["--locked"] + [option];
      PlainIsSkipped("--locked", [option], None);
      OptionIsSelected(option, manifest.value);
    } else {
      assert FetchArgv(manifest)[2..] == ["--locked"] + [];
      PlainIsSkipped("--locked", [], None);
    }
  }

  lemma OptionIsSelected(option: string, path: string)
    requires option == MANIFEST_PREFIX + path && path != ""
    ensures ManifestFrom([option], None) == Success(Some(path))
  {
    assert |option| > |MANIFEST_PREFIX| > |MANIFEST_FLAG| > |"--"|;
    assert StartsWith(option, MANIFEST_PREFIX);
    assert option[|MANIFEST_PREFIX|..] == path;
    var rest: seq<string> := [option][1..];
    assert ManifestFrom(rest, Some(path)) == Success(Some(path));
    assert Selected(path, rest, None) == Success(Some(path));
  }

  // ----- The order and the text of the plan ----------------------------------------------------

  predicate Uses(commands: seq<CargoArgv>, k: int, manifest: Option<string>) {
    0 <= k < |commands| && !IsFmt(commands[k]) && Selects(commands[k], manifest)
  }

  /** The first command other than `cargo fmt` on this manifest. */
  predicate IsFirstUse(commands: seq<CargoArgv>, k: int, manifest: Option<string>) {
    Uses(commands, k, manifest) && forall j :: 0 <= j < k ==> !Uses(commands, j, manifest)
  }

  lemma FirstUseEarlier(commands: seq<CargoArgv>, n: nat, k: int, manifest: Option<string>)
    requires n <= |commands| && IsFirstUse(commands, k, manifest) && InUse(commands[..n], manifest)
    ensures k < n && IsFirstUse(commands[..n], k, manifest)
  {
    var i :| 0 <= i < n && !IsFmt(commands[..n][i]) && Selects(commands[..n][i], manifest);
    assert Uses(commands, i, manifest);
    forall j | 0 <= j < k
      ensures !Uses(commands[..n], j, manifest)
    {
      assert !Uses(commands, j, manifest);
    }
  }

  /** Dependencies are fetched in the order in which the commands first need them. */
  lemma {:induction false} FetchedInOrderOfUse(commands: seq<CargoArgv>, i: nat, j: nat, p: int, q: int)
    requires i < j < |Manifests(commands)|
    requires IsFirstUse(commands, p, Manifests(commands)[i]) && IsFirstUse(commands, q, Manifests(commands)[j])
    ensures p < q
  {
    var n := |commands| - 1;
    var before, a, b := commands[..n], Manifests(commands)[i], Manifests(commands)[j];
    ManifestsAreDistinct(before);
    assert i < |Manifests(before)| && Manifests(before)[i] == a;
    FirstUseEarlier(commands, n, p, a);
    if j < |Manifests(before)| {
      FirstUseEarlier(commands, n, q, b);
      FetchedInOrderOfUse(before, i, j, p, q);
    } else if q < n {
      assert commands[..n][q] == commands[q];
      assert InUse(before, b);
    }
  }

  /** The command of a task as it is run: Cargo by its full path, the same subcommand and arguments, and for
      everything but `fmt` the lock file enforced and the network off, in front of them. */
  predicate RunsTask(argv: Argv, task: CargoArgv) {
    && |argv| >= 2 && argv[0] == "/usr/bin/cargo" && argv[1] == task[1]
    && if task[1] == "fmt" then argv[2..] == task[2..]
       else |argv| >= 4 && argv[2] == "--locked" && argv[3] == "--offline" && argv[4..] == task[2..]
  }

  /** A fetch by full path that respects the lock file and names the manifest, if there is one. */
  predicate RunsFetch(argv: Argv, manifest: Option<string>) {
    && |argv| == (if manifest.Some? then 4 else 3)
    && argv[0] == "/usr/bin/cargo" && argv[1] == "fetch" && argv[2] == "--locked"
    && (manifest.Some? ==> argv[3] == "--manifest-path=" + manifest.value)
  }

  /** What is run for the dependencies, and then for each command of the job. */
  lemma PlannedText(commands: seq<CargoArgv>, i: nat)
    ensures |Plan(commands)| == |Manifests(commands)| + |commands|
    ensures i < |Manifests(commands)| ==> RunsFetch(Plan(commands)[i].argv, Manifests(commands)[i])
    ensures i < |commands| ==> RunsTask(Plan(commands)[|Manifests(commands)| + i].argv, commands[i])
  {
    if i < |Manifests(commands)| {
      PlannedFetch(commands, i);
    }
    if i < |commands| {
      PlannedCheck(commands, i);
      TaskText(commands[i]);
    }
  }

  lemma TaskText(task: CargoArgv)
    ensures RunsTask(CheckArgv(task), task)
  {
    var argv := CheckArgv(task);
    if task[1] == "fmt" {
      assert argv[2..] == task[2..];
    } else {
      assert argv[4..] == task[2..];
    }
  }

  /** The plan as a whole: one networked fetch per manifest in use, then every check, offline,
      on the manifest its task command named. */
  lemma PlanIsFetchesThenChecks(commands: seq<CargoArgv>)
    ensures |Plan(commands)| == |Manifests(commands)| + |commands|
    ensures NoDuplicates(Manifests(commands))
    ensures forall m :: m in Manifests(commands) <==> InUse(commands, m)
    ensures forall i :: 0 <= i < |Manifests(commands)| ==>
              Plan(commands)[i].network && Selects(Plan(commands)[i].argv, Manifests(commands)[i])
    ensures forall i :: 0 <= i < |commands| ==>
              var check := Plan(commands)[|Manifests(commands)| + i];
              !check.network && Selects(check.argv, ManifestOf(commands[i]).value)
  {
    ManifestsAreDistinct(commands);
    forall i | 0 <= i < |Manifests(commands)|
      ensures Plan(commands)[i].network && Selects(Plan(commands)[i].argv, Manifests(commands)[i])
    {
      PlannedFetch(commands, i);
      ManifestIsFetched(commands, i);
    }
    forall i | 0 <= i < |commands|
      ensures var check := Plan(commands)[|Manifests(commands)| + i];
        !check.network && Selects(check.argv, ManifestOf(commands[i]).value)
    {
      PlannedCheck(commands, i);
      RewriteKeepsManifest(commands[i]);
    }
  }

  lemma PlannedFetch(commands: seq<CargoArgv>, i: nat)
    requires i < |Manifests(commands)|
    ensures i < |Plan(commands)| && Plan(commands)[i] == Command(FetchArgv(Manifests(commands)[i]), true)
  {
  }

  lemma PlannedCheck(commands: seq<CargoArgv>, i: nat)
    requires i < |commands|
    ensures |Plan(commands)| == |Manifests(commands)| + |commands|
    ensures Plan(commands)[|Manifests(commands)| + i] == Command(CheckArgv(commands[i]), false)
  {
  }

  lemma ManifestIsFetched(commands: seq<CargoArgv>, i: nat)
    requires i < |Manifests(commands)|
    ensures Selects(FetchArgv(Manifests(commands)[i]), Manifests(commands)[i])
  {
    var m := Manifests(commands)[i];
    ManifestsAreDistinct(commands);
    assert m in Manifests(commands);
    var j :| 0 <= j < |commands| && !IsFmt(commands[j]) && Selects(commands[j], m);
    SelectedIsNonempty(commands[j][2..], None);
    FetchKeepsManifest(m);
  }
}
