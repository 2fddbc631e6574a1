/**
 * main after the manifest is in place (lines 244-285): where the bundled
 * data lives, which text stands for `$APP`, how the command-line lists
 * extend the resolved ones, and the order of the steps, each of which can
 * stop the run with its exception.
 */
module Orchestrator {
  import opened Common
  import opened Strings
  import opened Versions
  import opened ForeignDeps
  import opened SourceLists
  import opened Manifest
  import opened PackageConfig

  /** The command-line options this part of main reads. */
  datatype Args = Args(appPubspec: Option<string>, extraPubspecs: Option<string>, cargoLocks: Option<string>)

  /** What fetch_flutter_app returns: the app id, the app module's name, the Flutter tag and the build id. */
  datatype Fetched = Fetched(appId: string, appModule: string, tag: Option<string>, buildId: nat)

  /**
   * The data the steps consult, read from files or handed over by the
   * generators: the program's directory, foreign.json's values (none when
   * the file is missing), the override table, the lockfile's packages, the
   * files that exist, PUB_CACHE, the absolute form of `build/{app}` as
   * Path.absolute gives it (line 181), the pubspec
   * generator's descriptors, the lines of flutter_tools' package_config.json
   * and the manifest's modules.
   */
  datatype Inputs = Inputs(
    parent: string,
    foreign: seq<Rule>,
    table: OverrideTable,
    packages: map<string, LockedPackage>,
    files: set<string>,
    pubCache: string,
    absAppPath: string,
    generatedPubspecSources: seq<Source>,
    packageConfigLines: seq<string>,
    modules: seq<ModuleEntry>)

  /** Everything the run decides: the resolution, the final lists, the generator inputs, and the patched modules. */
  datatype RunPlan = RunPlan(
    resolved: Outputs,
    extraPubspecs: seq<string>,
    cargoLocks: seq<string>,
    pubspecLockPaths: seq<string>,
    pubspecSources: seq<Source>,
    packageConfig: string,
    cargo: Option<CargoPlan>,
    sdk: (CopyOp, SdkSource),
    modules: seq<ModuleEntry>)

  function ReleasesPath(parent: string): string { parent + "/releases" }

  function ForeignDepsPath(parent: string): string { parent + "/foreign_deps" }

  /** The app's pubspec directory, "." when none is given; it is also what `$APP` stands for. */
  function AppPubspec(arg: Option<string>): (r: string)
    ensures arg.None? ==> r == "."
    ensures arg.Some? ==> r == arg.value
  {
    if arg.None? then "." else arg.value
  }

  /** A comma-separated option as a list: absent is empty, present splits into at least one entry. */
  function CommaList(arg: Option<string>): (r: seq<string>)
    ensures arg.None? ==> r == []
    ensures arg.Some? ==> |r| >= 1 && Join(r, ",") == arg.value
    ensures forall i :: 0 <= i < |r| ==> ',' !in r[i]
  {
    if arg.None? then []
    else
      JoinSplitOn(arg.value, ',');
      SplitOn(arg.value, ',')
  }

  /** Lines 260-285, with --app-pubspec, --extra-pubspecs and --cargo-locks; no tag ends the run at once. */
  function Main(args: Args, fetched: Fetched, inputs: Inputs): (r: Result<Option<RunPlan>>)
    ensures fetched.tag.None? <==> r == Ok(None)
    ensures r.Ok? && r.value.Some? ==>
      var run := r.value.value;
      && |run.pubspecLockPaths| == 2 + |run.extraPubspecs|
      && (run.cargo.Some? <==> run.cargoLocks != [])
      && |run.modules| == |inputs.modules|
    ensures r.Ok? && r.value.Some? ==>
      var run := r.value.value;
      var appPubspec := AppPubspec(args.appPubspec);
      var env := Env(appPubspec, ForeignDepsPath(inputs.parent), inputs.files, inputs.pubCache);
      && Resolve(inputs.foreign, inputs.table, inputs.packages, env) == Ok(run.resolved)
      && run.extraPubspecs == run.resolved.extraPubspecs + CommaList(args.extraPubspecs)
      && run.cargoLocks == run.resolved.cargoLocks + CommaList(args.cargoLocks)
      && run.pubspecLockPaths == PubspecLockPaths(fetched.appModule, appPubspec, run.extraPubspecs)
      && run.pubspecSources == PubspecSources(inputs.generatedPubspecSources)
      && run.packageConfig == Rewritten(inputs.packageConfigLines, fetched.appModule, fetched.buildId, inputs.absAppPath)
      && (run.cargo.Some? ==>
            run.cargo.value == CargoPlan(CargoLockPaths(fetched.appModule, run.cargoLocks), RustupCopy(ReleasesPath(inputs.parent))))
      && SdkModule(fetched.appModule, fetched.tag.value, ReleasesPath(inputs.parent), inputs.files) == Ok(run.sdk)
      && Patch(inputs.modules, fetched.appModule, run.resolved.sources, run.cargoLocks) == Ok(run.modules)
  {
    if fetched.tag.None? then Ok(None)
    else
      var appPubspec := AppPubspec(args.appPubspec);
      var env := Env(appPubspec, ForeignDepsPath(inputs.parent), inputs.files, inputs.pubCache);
      match Resolve(inputs.foreign, inputs.table, inputs.packages, env)
      case Err(e) => Err(e)
      case Ok(resolved) =>
        var extras := resolved.extraPubspecs + CommaList(args.extraPubspecs);
        var cargoLocks := resolved.cargoLocks + CommaList(args.cargoLocks);
        var lockPaths := PubspecLockPaths(fetched.appModule, appPubspec, extras);
        var config := Rewritten(inputs.packageConfigLines, fetched.appModule, fetched.buildId, inputs.absAppPath);
        var cargo := if cargoLocks == [] then None
                     else Some(CargoPlan(CargoLockPaths(fetched.appModule, cargoLocks), RustupCopy(ReleasesPath(inputs.parent))));
        match SdkModule(fetched.appModule, fetched.tag.value, ReleasesPath(inputs.parent), inputs.files)
        case Err(e) => Err(e)
        case Ok(sdk) =>
          match Patch(inputs.modules, fetched.appModule, resolved.sources, cargoLocks)
          case Err(e) => Err(e)
          case Ok(modules) => Ok(Some(RunPlan(resolved, extras, cargoLocks, lockPaths,
                                                PubspecSources(inputs.generatedPubspecSources), config, cargo, sdk, modules)))
  }

  /** Without a tag nothing after the fetch happens, and the run succeeds. */
  lemma MainStopsWithoutTag(args: Args, fetched: Fetched, inputs: Inputs)
    requires fetched.tag.None?
    ensures Main(args, fetched, inputs) == Ok(None)
  {
  }

  /**
   * With a tag, the run fails exactly when the resolution, the tag's
   * version, or the manifest patch fails, and in that order.
   */
  lemma MainErrors(args: Args, fetched: Fetched, inputs: Inputs)
    requires fetched.tag.Some?
    ensures var env := Env(AppPubspec(args.appPubspec), ForeignDepsPath(inputs.parent), inputs.files, inputs.pubCache);
      var resolved := Resolve(inputs.foreign, inputs.table, inputs.packages, env);
      var r := Main(args, fetched, inputs);
      && (resolved.Err? ==> r == Err(resolved.error))
      && (resolved.Ok? && ParseVersion(fetched.tag.value).None? ==> r == Err(InvalidVersion(fetched.tag.value)))
      && (resolved.Ok? && ParseVersion(fetched.tag.value).Some? ==>
            var cargoLocks := resolved.value.cargoLocks + CommaList(args.cargoLocks);
            var patched := Patch(inputs.modules, fetched.appModule, resolved.value.sources, cargoLocks);
            (r.Ok? <==> patched.Ok?) && (patched.Err? ==> r == Err(patched.error)))
  {
  }

  /**
   * The command-line lists come after the resolved ones; the pubspec
   * lockfiles follow the same order, after the app's and flutter_tools'.
   */
  lemma MainListsOrder(args: Args, fetched: Fetched, inputs: Inputs)
    requires Main(args, fetched, inputs).Ok? && Main(args, fetched, inputs).value.Some?
    ensures var run := Main(args, fetched, inputs).value.value;
      var extras := run.resolved.extraPubspecs + CommaList(args.extraPubspecs);
      && run.extraPubspecs == extras
      && run.cargoLocks == run.resolved.cargoLocks + CommaList(args.cargoLocks)
      && |run.pubspecLockPaths| == 2 + |extras|
      && DirectoryOf(run.pubspecLockPaths[0], fetched.appModule, PUBSPEC_LOCK) == Some(AppPubspec(args.appPubspec))
      && forall i :: 0 <= i < |extras| ==>
           DirectoryOf(run.pubspecLockPaths[2 + i], fetched.appModule, PUBSPEC_LOCK) == Some(extras[i])
  {
    var run := Main(args, fetched, inputs).value.value;
    PubspecLockPathsOrder(fetched.appModule, AppPubspec(args.appPubspec), run.extraPubspecs);
  }

  /**
   * Any --cargo-locks option, even an empty one (which splits into one empty
   * entry), makes the Cargo step run, and any module the run changes, which
   * can only be the app module, ends its sources with cargo-sources.json,
   * whatever the resolution found.
   */
  lemma CargoOptionAddsCargoSources(args: Args, fetched: Fetched, inputs: Inputs)
    requires args.cargoLocks.Some?
    requires Main(args, fetched, inputs).Ok? && Main(args, fetched, inputs).value.Some?
    ensures var run := Main(args, fetched, inputs).value.value;
      && run.cargo.Some?
      && |run.cargoLocks| > 0
      && Reference(CARGO_SOURCES) in Added(run.resolved.sources, run.cargoLocks)
    ensures var run := Main(args, fetched, inputs).value.value;
      forall i :: 0 <= i < |inputs.modules| && run.modules[i] != inputs.modules[i] ==>
        && run.modules[i].ModuleDef?
        && run.modules[i].name == Some(fetched.appModule)
        && run.modules[i].sources.Some?
        && inputs.modules[i].ModuleDef? && inputs.modules[i].sources.Some?
        && run.modules[i].sources.value == inputs.modules[i].sources.value + Added(run.resolved.sources, run.cargoLocks)
        && run.modules[i].sources.value != []
        && run.modules[i].sources.value[|run.modules[i].sources.value| - 1] == Reference(CARGO_SOURCES)
  {
    var run := Main(args, fetched, inputs).value.value;
    var added := Added(run.resolved.sources, run.cargoLocks);
    assert added[|run.resolved.sources|] == Reference(CARGO_SOURCES);
    PatchChangesOnlyByExtending(inputs.modules, fetched.appModule, run.resolved.sources, run.cargoLocks);
  }

  /**
   * With --cargo-locks, when the first module that stops the loop is the app
   * module with a source list, that module's sources end with
   * cargo-sources.json in the patched manifest.
   */
  lemma CargoOptionExtendsAppModule(args: Args, fetched: Fetched, inputs: Inputs, k: nat)
    requires args.cargoLocks.Some?
    requires Main(args, fetched, inputs).Ok? && Main(args, fetched, inputs).value.Some?
    requires k < |inputs.modules| && Stops(inputs.modules[k], fetched.appModule)
    requires forall j :: 0 <= j < k ==> !Stops(inputs.modules[j], fetched.appModule)
    requires inputs.modules[k].ModuleDef? && inputs.modules[k].sources.Some?
    ensures var run := Main(args, fetched, inputs).value.value;
      var old_ := inputs.modules[k].sources.value;
      var added := Added(run.resolved.sources, run.cargoLocks);
      && run.modules == inputs.modules[k := inputs.modules[k].(sources := Some(old_ + added))]
      && run.modules[k].sources.value[|old_ + added| - 1] == Reference(CARGO_SOURCES)
  {
    var run := Main(args, fetched, inputs).value.value;
    var added := Added(run.resolved.sources, run.cargoLocks);
    assert added[|run.resolved.sources|] == Reference(CARGO_SOURCES);
    PatchAtFirstStop(inputs.modules, fetched.appModule, run.resolved.sources, run.cargoLocks, k);
  }

  /**
   * Without --app-pubspec, the resolution Main runs has `$APP` standing for
   * ".": a descriptor whose dest is `$APP/x` comes out with dest `./x`.
   */
  lemma DefaultAppToken(args: Args, fetched: Fetched, inputs: Inputs, s: Source, pubDev: string)
    requires args.appPubspec.None?
    requires s.dest == Some("$APP/x")
    ensures var env := Env(AppPubspec(args.appPubspec), ForeignDepsPath(inputs.parent), inputs.files, inputs.pubCache);
      && env.app == "."
      && SubstituteDest(s, pubDev, env.app) == s.(dest := Some("./x"))
  {
    var d := "$APP/x";
    assert !Contains(d, PUB_DEV_TOKEN);
    ReplaceAllAbsent(d, PUB_DEV_TOKEN, pubDev);
    assert d[..|APP_TOKEN|] == APP_TOKEN;
    assert d[|APP_TOKEN|..] == "/x";
    ReplaceAllMissingFirst("/x", APP_TOKEN, ".");
    assert "." + "/x" == "./x";
  }
}
