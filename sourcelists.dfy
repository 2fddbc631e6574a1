/**
 * The lists handed to the source generators: the pubspec lockfiles of
 * _generate_pubspec_sources, the Cargo lockfiles of _generate_cargo_sources,
 * and the files _get_sdk_module copies or generates for the Flutter SDK.
 * The generators themselves produce their descriptors from files on disk;
 * here their output is given.
 */
module SourceLists {
  import opened Common
  import opened Strings
  import opened Versions
  import opened ForeignDeps

  const BUILD_PATH := ".flatpak-builder/build"
  const FLUTTER_TOOLS := "flutter/packages/flutter_tools"
  const PUBSPEC_LOCK := "pubspec.lock"
  const CARGO_LOCK := "Cargo.lock"
  const RUST_VERSION := "1.83.0"
  const SDK_THRESHOLD := "3.35.0"
  const SHARED_PATCH := "flutter-shared.sh.patch"
  const PRE_THRESHOLD_PATCH := "flutter-pre-3_35-shared.sh.patch"

  /** `{build_path}/{app}/{dir}/{file}`. */
  function AppFile(app: string, dir: string, file: string): string
  {
    BUILD_PATH + "/" + app + "/" + dir + "/" + file
  }

  /** The directory `dir` of an `AppFile(app, dir, file)`, read back from the path. */
  function DirectoryOf(path: string, app: string, file: string): (r: Option<string>)
    ensures r.Some? ==> AppFile(app, r.value, file) == path
  {
    var prefix := BUILD_PATH + "/" + app + "/";
    var suffix := "/" + file;
    if |prefix| + |suffix| <= |path| && path[..|prefix|] == prefix && path[|path| - |suffix|..] == suffix
    then
      var dir := path[|prefix|..|path| - |suffix|];
      assert path == prefix + dir + suffix;
      Some(dir)
    else None
  }

  /** A lockfile path determines the directory it was built from. */
  lemma DirectoryOfAppFile(app: string, dir: string, file: string)
    ensures DirectoryOf(AppFile(app, dir, file), app, file) == Some(dir)
  {
    var prefix := BUILD_PATH + "/" + app + "/";
    var suffix := "/" + file;
    var path := AppFile(app, dir, file);
    assert path == prefix + dir + suffix;
    assert path[..|prefix|] == prefix;
    assert path[|path| - |suffix|..] == suffix;
    assert path[|prefix|..|path| - |suffix|] == dir;
  }

  // ---------------------------------------------------------------------
  // Pubspec lockfiles (lines 159-175)
  // ---------------------------------------------------------------------

  /** The lockfiles handed to the pubspec generator: the app's, flutter_tools', then the extras'. */
  function PubspecLockPaths(app: string, appPubspec: string, extras: seq<string>): (r: seq<string>)
    ensures |r| == 2 + |extras|
    ensures r[0] == AppFile(app, appPubspec, PUBSPEC_LOCK) && r[1] == AppFile(app, FLUTTER_TOOLS, PUBSPEC_LOCK)
    ensures forall i :: 0 <= i < |extras| ==> r[2 + i] == AppFile(app, extras[i], PUBSPEC_LOCK)
  {
    [AppFile(app, appPubspec, PUBSPEC_LOCK), AppFile(app, FLUTTER_TOOLS, PUBSPEC_LOCK)]
      + seq(|extras|, i requires 0 <= i < |extras| => AppFile(app, extras[i], PUBSPEC_LOCK))
  }

  /** The list starts with the app lockfile and then flutter_tools', and one lockfile per extra follows in order. */
  lemma PubspecLockPathsOrder(app: string, appPubspec: string, extras: seq<string>)
    ensures var paths := PubspecLockPaths(app, appPubspec, extras);
      && |paths| == 2 + |extras|
      && DirectoryOf(paths[0], app, PUBSPEC_LOCK) == Some(appPubspec)
      && DirectoryOf(paths[1], app, PUBSPEC_LOCK) == Some(FLUTTER_TOOLS)
      && forall i :: 0 <= i < |extras| ==> DirectoryOf(paths[2 + i], app, PUBSPEC_LOCK) == Some(extras[i])
  {
    DirectoryOfAppFile(app, appPubspec, PUBSPEC_LOCK);
    DirectoryOfAppFile(app, FLUTTER_TOOLS, PUBSPEC_LOCK);
    forall i | 0 <= i < |extras|
      ensures DirectoryOf(PubspecLockPaths(app, appPubspec, extras)[2 + i], app, PUBSPEC_LOCK) == Some(extras[i])
    {
      DirectoryOfAppFile(app, extras[i], PUBSPEC_LOCK);
    }
  }

  /** The append loop of lines 161-168. */
  method BuildPubspecLockPaths(app: string, appPubspec: string, extras: seq<string>) returns (paths: seq<string>)
    ensures paths == PubspecLockPaths(app, appPubspec, extras)
  {
    paths := [AppFile(app, appPubspec, PUBSPEC_LOCK), AppFile(app, FLUTTER_TOOLS, PUBSPEC_LOCK)];
    for i := 0 to |extras|
      invariant paths == PubspecLockPaths(app, appPubspec, extras[..i])
    {
      paths := paths + [AppFile(app, extras[i], PUBSPEC_LOCK)];
    }
    assert extras[..|extras|] == extras;
  }

  /** The descriptor that puts the rewritten package_config.json in flutter_tools' .dart_tool. */
  const PACKAGE_CONFIG_SOURCE := Source(Some("file"), Some("package_config.json"), Some(FLUTTER_TOOLS + "/.dart_tool"), [])

  /** pubspec-sources.json: the generator's descriptors, then the package_config.json one last. */
  function PubspecSources(generated: seq<Source>): (r: seq<Source>)
    ensures |r| == |generated| + 1
    ensures r[..|generated|] == generated
    ensures r[|generated|] == PACKAGE_CONFIG_SOURCE
  {
    generated + [PACKAGE_CONFIG_SOURCE]
  }

  // ---------------------------------------------------------------------
  // Cargo lockfiles (lines 192-205)
  // ---------------------------------------------------------------------

  function CargoLockPaths(app: string, locks: seq<string>): (r: seq<string>)
    ensures |r| == |locks|
    ensures forall i :: 0 <= i < |locks| ==> r[i] == AppFile(app, locks[i], CARGO_LOCK)
  {
    seq(|locks|, i requires 0 <= i < |locks| => AppFile(app, locks[i], CARGO_LOCK))
  }

  /** One Cargo.lock path per lock directory, in order, each naming its directory. */
  lemma CargoLockPathsOrder(app: string, locks: seq<string>)
    ensures |CargoLockPaths(app, locks)| == |locks|
    ensures forall i :: 0 <= i < |locks| ==> DirectoryOf(CargoLockPaths(app, locks)[i], app, CARGO_LOCK) == Some(locks[i])
  {
    forall i | 0 <= i < |locks| ensures DirectoryOf(CargoLockPaths(app, locks)[i], app, CARGO_LOCK) == Some(locks[i]) {
      DirectoryOfAppFile(app, locks[i], CARGO_LOCK);
    }
  }

  /** The rustup toolchain description copied next to cargo-sources.json. */
  function RustupCopy(releases: string): (r: CopyOp)
    ensures |releases| <= |r.src| && r.src[..|releases|] == releases && EndsWith(r.src, "/rustup.json")
    ensures r.dst == "rustup-1.83.0.json"
  {
    CopyOp(releases + "/rust/" + RUST_VERSION + "/rustup.json", "rustup-" + RUST_VERSION + ".json")
  }

  /** What _generate_cargo_sources does when it has lockfiles: the paths it hands the generator and the copy. */
  datatype CargoPlan = CargoPlan(lockPaths: seq<string>, rustup: CopyOp)

  /**
   * The Cargo step: with no lockfiles nothing happens (no generator run, no
   * cargo-sources.json, no rustup copy); otherwise one path per lockfile.
   */
  method PlanCargoSources(app: string, locks: seq<string>, releases: string) returns (plan: Option<CargoPlan>)
    ensures plan.None? <==> locks == []
    ensures plan.Some? ==> plan.value.lockPaths == CargoLockPaths(app, locks) && plan.value.rustup == RustupCopy(releases)
  {
    if locks == [] {
      return None;
    }
    var cargoPaths := [];
    for i := 0 to |locks|
      invariant cargoPaths == CargoLockPaths(app, locks[..i])
    {
      cargoPaths := cargoPaths + [AppFile(app, locks[i], CARGO_LOCK)];
    }
    assert locks[..|locks|] == locks;
    return Some(CargoPlan(cargoPaths, RustupCopy(releases)));
  }

  // ---------------------------------------------------------------------
  // The Flutter SDK module (lines 208-220)
  // ---------------------------------------------------------------------

  lemma ThresholdParses()
    ensures ParseVersion(SDK_THRESHOLD) == Some([3, 35, 0])
  {
    assert SDK_THRESHOLD == "3" + "." + "35" + "." + "0";
    assert "35"[..1] == "3";
    ParseThreeComponents(SDK_THRESHOLD, "3", "35", "0");
  }

  /** The copy of the shared.sh patch: the pre-3.35 variant for tags before 3.35.0. */
  function SharedPatchCopy(tag: string, releases: string): (r: Result<CopyOp>)
    ensures r.Err? <==> ParseVersion(tag).None?
    ensures r.Err? ==> r.error == InvalidVersion(tag)
    ensures r.Ok? ==> r.value.dst == SHARED_PATCH
    ensures r.Ok? ==>
      (r.value.src == releases + "/flutter/" + PRE_THRESHOLD_PATCH <==> Lt(ParseVersion(tag).value, [3, 35, 0]))
    ensures r.Ok? ==>
      (r.value.src == releases + "/flutter/" + SHARED_PATCH <==> !Lt(ParseVersion(tag).value, [3, 35, 0]))
  {
    ThresholdParses();
    match VersionLt(tag, SDK_THRESHOLD)
    case Err(e) => Err(e)
    case Ok(before) =>
      if before then Ok(CopyOp(releases + "/flutter/" + PRE_THRESHOLD_PATCH, SHARED_PATCH))
      else Ok(CopyOp(releases + "/flutter/" + SHARED_PATCH, SHARED_PATCH))
  }

  /** True when the tag gets the pre-3.35 patch. */
  predicate UsesPreThresholdPatch(tag: string, releases: string)
  {
    var r := SharedPatchCopy(tag, releases);
    r.Ok? && r.value.src == releases + "/flutter/" + PRE_THRESHOLD_PATCH
  }

  /** The variant is monotone in the version: a later tag than one that gets the current patch gets it too. */
  lemma SharedPatchMonotone(older: string, newer: string, releases: string)
    requires ParseVersion(older).Some? && ParseVersion(newer).Some?
    requires Le(ParseVersion(older).value, ParseVersion(newer).value)
    requires !UsesPreThresholdPatch(older, releases)
    ensures !UsesPreThresholdPatch(newer, releases)
  {
    var o, n := ParseVersion(older).value, ParseVersion(newer).value;
    if Lt(n, [3, 35, 0]) {
      CmpTransitive(o, n, [3, 35, 0]);
    }
  }

  /** 3.35.0 itself gets the current patch and 3.32.8 the pre-3.35 one. */
  lemma SharedPatchExample(releases: string)
    ensures !UsesPreThresholdPatch("3.35.0", releases) && SharedPatchCopy("3.35.0", releases).Ok?
    ensures UsesPreThresholdPatch("3.32.8", releases)
  {
    SharedPatchAtThreshold(releases);
    SharedPatchBeforeThreshold(releases);
  }

  lemma SharedPatchAtThreshold(releases: string)
    ensures !UsesPreThresholdPatch(SDK_THRESHOLD, releases) && SharedPatchCopy(SDK_THRESHOLD, releases).Ok?
  {
    ThresholdParses();
    CmpReflexive([3, 35, 0]);
  }

  lemma SharedPatchBeforeThreshold(releases: string)
    ensures UsesPreThresholdPatch("3.32.8", releases)
  {
    var tag := "3.32.8";
    assert tag == "3" + "." + "32" + "." + "8";
    assert "32"[..1] == "3";
    ParseThreeComponents(tag, "3", "32", "8");
    assert Cmp([3, 32, 8], [3, 35, 0]) == -1;
  }

  /** Where flutter-sdk-{tag}.json comes from. */
  datatype SdkSource =
    /** The prepared description for the tag, copied. */
    | CopySdk(op: CopyOp)
    /** Generated from the fetched SDK checkout and written to `out`. */
    | GenerateSdk(flutterDir: string, tag: string, out: string)

  function SdkOutput(tag: string): string { "flutter-sdk-" + tag + ".json" }

  /** The prepared description is copied when it exists, and generated from the checkout otherwise. */
  function SdkSourceFor(app: string, tag: string, releases: string, files: set<string>): (r: SdkSource)
    ensures r.CopySdk? <==> releases + "/flutter/" + tag + "/flutter-sdk.json" in files
    ensures r.CopySdk? ==> r.op == CopyOp(releases + "/flutter/" + tag + "/flutter-sdk.json", SdkOutput(tag))
    ensures r.GenerateSdk? ==> r.flutterDir == BUILD_PATH + "/" + app + "/flutter" && r.tag == tag && r.out == SdkOutput(tag)
  {
    var prepared := releases + "/flutter/" + tag + "/flutter-sdk.json";
    if prepared in files then CopySdk(CopyOp(prepared, SdkOutput(tag)))
    else GenerateSdk(BUILD_PATH + "/" + app + "/flutter", tag, SdkOutput(tag))
  }

  /** _get_sdk_module: the patch is chosen first, so an unreadable tag fails before the SDK description. */
  function SdkModule(app: string, tag: string, releases: string, files: set<string>): (r: Result<(CopyOp, SdkSource)>)
    ensures r.Err? <==> ParseVersion(tag).None?
    ensures r.Ok? ==> r.value.0 == SharedPatchCopy(tag, releases).value
    ensures r.Ok? ==> r.value.1 == SdkSourceFor(app, tag, releases, files)
  {
    match SharedPatchCopy(tag, releases)
    case Err(e) => Err(e)
    case Ok(patch) => Ok((patch, SdkSourceFor(app, tag, releases, files)))
  }
}
