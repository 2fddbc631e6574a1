# flatpak-flutter: dependency overrides, path lists and manifest patch

flatpak-flutter turns the Flatpak manifest of a Flutter application into one
that builds offline. Flatpak module sources come from several places:
- the pub lockfiles, through a pubspec generator;
- the Cargo lockfiles, through a Cargo generator;
- the Flutter SDK;
- a bundled table of *foreign dependencies*. These are pub packages that need
  extra lockfiles, extra Cargo lockfiles or extra source descriptors (often
  patches) in the Flatpak build.

The app module of the manifest then gets those sources. This project models
that core of `rivaltune/flatpak-flutter.py` in Dafny and proves what it does.

- `Common` holds `Option`, `Result` and, as values, the exceptions of the
  code that this model covers: `InvalidVersion`, `IndexError`, some
  `KeyError`s and `TypeError` ("## Left out" names those it does not).
- `Strings`: Python's `str.replace`, including the empty-pattern case,
  `str.split` with a one-character separator, `str.join`, `str(int)`, the
  `split('.git')[0]` idiom and pathlib's `Path.name`. Each comes with the
  laws the rest of the model uses.
- `Versions`: the release segment of a PEP 440 version (`N(.N)*`) and its
  ordering. A missing component counts as zero, so `3.35 == 3.35.0`. The
  ordering is proved reflexive and transitive, and swapping the operands
  negates it. Two releases compare equal exactly when they agree at every
  position once padded with zeros, and the first position where they differ
  decides the order.
- `ForeignDeps` models `_handle_foreign_dependencies`:
  - choosing the override rule for a locked version: the `for ... else` walk
    from the last minimum version down to the first, falling back to the
    first;
  - the `append_dependency` closure, with `$PUB_DEV` and `$APP` substitution
    and patch copies;
  - the order of the whole resolution: foreign.json's values first, then the
    override table in its own key order, restricted to locked packages, with a
    warning for packages not hosted on pub.dev.

  The loops are methods, proved against the specification functions
  `SelectRule`, `Contribution` and `Resolve`.
- `PackageConfig`: the line-by-line rewrite of flutter_tools'
  `package_config.json`:
  - `{app}-{build_id}` becomes `{app}`;
  - then the absolute app path becomes `/run/build/{app}`.
- `SourceLists`:
  - the pubspec and Cargo lockfile lists;
  - the `package_config.json` descriptor appended after the generator's
    descriptors;
  - the rustup copy;
  - the choice of the `shared.sh` patch by `tag < 3.35.0`;
  - copying versus generating the SDK description.
- `Manifest`: the loop that extends the sources of the first module named
  after the app module, as a method over an array of module entries. It is
  proved against the function `Patch`. The loop looks only at the top-level
  module list, as the code does.
- `Acquire`:
  - the `git clone` argument list and the manifest path inside the clone;
  - the GitHub raw-file URL;
  - the choice between reading the manifest locally, downloading it and
    cloning.
- `Orchestrator`: `main` after the fetch:
  - `$APP` stands for the app pubspec path, `.` by default;
  - the `--extra-pubspecs` and `--cargo-locks` lists are appended to the
    resolved ones;
  - the steps run in order and the run stops at the first exception.

Things the code consults become parameters:
- the files that exist (`os.path.isfile`) are a `set<string>`;
- `PUB_CACHE`, the absolute app path and `urlparse`'s hostname and path are
  plain values;
- the outputs of the generators are given sequences.

JSON objects are sequences of key/value pairs in document order, as a Python
dict keeps them. A rule without `extra_pubspecs`, `cargo_locks` or
`manifest.sources` reads as one with an empty list. The code skips the loop
in that case, which gives the same output.

What the code does, in cases where it is easy to misread:
- Only a descriptor's `dest` gets its placeholders filled in. A patch's
  `path` is used as written.
- Override-table entries are visited in the table's own key order, not the
  lockfile's.
- The chosen rule is the *last* qualifying one in stored order. For a table
  stored in ascending order that is the largest minimum version `<=` the
  locked one (`SelectRuleSortedPicksGreatest`). For an unordered table it is
  not.
- The absolute path replaced in `package_config.json` is the app module's
  directory without the build id (line 181). If that path did carry the id,
  as `{root}/{app}-{build_id}`, the first replacement would already have
  removed the id and the host path would stay
  (`PackageConfig.IdBearingPathIsNotReplaced`).
- When no module matches, the manifest is left unchanged without an error.
- When the matching module has no `sources` and something is to be added,
  the code raises `KeyError`.
- A module given as a file name that contains `name` hits a `TypeError`.
- Versions are PEP 440 releases, not semantic versions.

## Model

| member | source | states |
|---|---|---|
| Strings.ReplaceAll | rivaltune/flatpak-flutter.py:104 | `str.replace` with a non-empty pattern keeps the length for a same-length replacement and never shortens for a longer one |
| Strings.ReplaceAllAbsent | rivaltune/flatpak-flutter.py:104 | `str.replace` leaves a string in which the (non-empty) pattern does not occur unchanged |
| Strings.ReplaceAllMissingFirst | rivaltune/flatpak-flutter.py:121-122 | a string without the pattern's first character is left unchanged by `str.replace` |
| Strings.ReplaceAllIdentity | rivaltune/flatpak-flutter.py:186 | replacing a pattern by itself changes nothing, for every pattern including the empty one |
| Strings.ReplaceAllKeepsLast | rivaltune/flatpak-flutter.py:186 | a final character the pattern lacks survives the replacement as the final character |
| Strings.ReplaceAllSplitsAt | rivaltune/flatpak-flutter.py:186 | a pattern without the boundary character never matches across it, so `(a + b).replace` is `a.replace + b.replace` when `a` ends with that character |
| Strings.SplitOn | rivaltune/flatpak-flutter.py:268 | `str.split(sep)` gives at least one piece and no piece contains the separator |
| Strings.JoinSplitOn | rivaltune/flatpak-flutter.py:268 | joining the pieces of a split with the separator gives the string back |
| Strings.SplitOnJoin | rivaltune/flatpak-flutter.py:268 | splitting the join of separator-free pieces gives the pieces back |
| Strings.SplitOnAround | rivaltune/flatpak-flutter.py:270 | a separator splits a string into the pieces of its two sides |
| Strings.NatToDecimal | rivaltune/flatpak-flutter.py:186 | `str(build_id)` is a non-empty string of decimal digits |
| Strings.DigitsValueOfDecimal | rivaltune/flatpak-flutter.py:186 | reading back the decimal form of a number gives the number |
| Strings.BeforeFirst | rivaltune/flatpak-flutter.py:251 | `s.split(sep)[0]` is a prefix of `s` |
| Strings.BeforeFirstAt | rivaltune/flatpak-flutter.py:251 | when `sep` first occurs at index `i`, `s.split(sep)[0]` is `s[..i]` |
| Strings.BeforeFirstAbsent | rivaltune/flatpak-flutter.py:251 | when `sep` does not occur, `s.split(sep)[0]` is `s` |
| Strings.StripSuffix | rivaltune/flatpak-flutter.py:251 | the string without a trailing suffix, restored by appending it, and unchanged without one |
| Strings.PathParts | rivaltune/flatpak-flutter.py:36 | pathlib keeps no empty and no `.` component |
| Strings.PathName | rivaltune/flatpak-flutter.py:36 | `Path(p).name` contains no `/` |
| Strings.PathNameOfChild | rivaltune/flatpak-flutter.py:36 | the name of `dir/file` is `file` for a proper file name |
| Versions.ParseVersion | rivaltune/flatpak-flutter.py:144 | a readable version has exactly one number per dot-separated component |
| Versions.ParseFormat | rivaltune/flatpak-flutter.py:144 | reading the dotted form of a release gives the release back |
| Versions.ParseThreeComponents | rivaltune/flatpak-flutter.py:209 | a version `a.b.c` of digit strings reads as their three values |
| Versions.Cmp | rivaltune/flatpak-flutter.py:144 | the comparison of two releases is -1, 0 or 1 |
| Versions.CmpReflexive | rivaltune/flatpak-flutter.py:144 | every release compares equal to itself |
| Versions.CmpSwapNegates | rivaltune/flatpak-flutter.py:144 | swapping the operands negates the comparison |
| Versions.CmpFirstDifference | rivaltune/flatpak-flutter.py:144 | when two releases, padded with zeros, agree below position `k` and the first is smaller at `k`, the first is smaller |
| Versions.CmpZeroIff | rivaltune/flatpak-flutter.py:144 | two releases compare equal exactly when they agree at every position once padded with zeros |
| Versions.CmpTransitive | rivaltune/flatpak-flutter.py:144 | `<=` is transitive, and strict when either step is strict |
| Versions.CmpTrailingZero | rivaltune/flatpak-flutter.py:209 | a trailing zero does not change a release (`3.35 == 3.35.0`) |
| Versions.VersionLe | rivaltune/flatpak-flutter.py:144 | `Version(x) <= Version(y)` fails exactly when either text is unreadable, with `x` read first, and otherwise is the release ordering |
| Versions.VersionLt | rivaltune/flatpak-flutter.py:209 | `Version(x) < Version(y)` fails exactly when either text is unreadable, and otherwise is the strict release ordering |
| ForeignDeps.Keys | rivaltune/flatpak-flutter.py:139 | `list(foreign_dep.keys())`: one key per rule, in stored order |
| ForeignDeps.SelectFrom | rivaltune/flatpak-flutter.py:143-148 | the walk over the keys below `i` yields an index that exists |
| ForeignDeps.SelectRule | rivaltune/flatpak-flutter.py:139-148 | the chosen rule index exists |
| ForeignDeps.SelectFromLast | rivaltune/flatpak-flutter.py:143-148 | with readable versions, the walk from `i` down stops at the highest qualifying index below `i`, or at 0 when none qualifies |
| ForeignDeps.SelectFromVerdicts | rivaltune/flatpak-flutter.py:143-148 | once each key's `Version(key) <= Version(locked)` is known, the walk picks the last key whose answer is true, or the first key when none is |
| ForeignDeps.SelectRuleChoosesLastQualifying | rivaltune/flatpak-flutter.py:139-148 | with readable versions the chosen rule is the last in stored order whose version is `<=` the locked one, equality included, and the first rule when none is |
| ForeignDeps.SelectRuleSortedPicksGreatest | rivaltune/flatpak-flutter.py:139-148 | for an ascending table, the largest minimum version `<=` the locked one, or the smallest when none is |
| ForeignDeps.SelectRuleRejectsUnreadableLocked | rivaltune/flatpak-flutter.py:141-144 | an unreadable locked version is an `InvalidVersion` error whatever the table holds |
| ForeignDeps.SelectRuleIndex | rivaltune/flatpak-flutter.py:143-148 | the `for ... else` loop with `break` returns the rule `SelectRule` specifies, including its errors |
| ForeignDeps.SelectRuleExampleBetween | rivaltune/flatpak-flutter.py:143-146 | rules 1.0.0, 2.0.0 and 3.0.0 with a package locked at 2.5.0: the 2.0.0 rule is chosen |
| ForeignDeps.SelectRuleExampleBelow | rivaltune/flatpak-flutter.py:147-148 | locked at 0.5.0: it falls back to the 1.0.0 rule |
| ForeignDeps.SelectRuleExampleEqual | rivaltune/flatpak-flutter.py:144-146 | locked at exactly 2.0.0: the 2.0.0 rule is chosen |
| ForeignDeps.SubstitutePaths | rivaltune/flatpak-flutter.py:102-108 | one path per listed path, and a path without `$PUB_DEV` is kept as it is |
| ForeignDeps.SubstituteDest | rivaltune/flatpak-flutter.py:120-123 | only `dest` can change, it stays present or absent, and a `dest` without either placeholder leaves the descriptor unchanged |
| ForeignDeps.SourceStep | rivaltune/flatpak-flutter.py:111-125 | one descriptor fails exactly when it lacks its type or is a patch without a path; otherwise it keeps its type and path and yields at most one copy |
| ForeignDeps.SourcesContribution | rivaltune/flatpak-flutter.py:110-125 | when it succeeds, one descriptor out per descriptor in, and at most one copy each |
| ForeignDeps.SourcesContributionShape | rivaltune/flatpak-flutter.py:110-125 | the descriptor loop fails exactly when a descriptor lacks its type, or a patch lacks its path; otherwise it emits every descriptor once, in order, with dest substituted, and the copies of the patches whose file exists |
| ForeignDeps.SourcesContributionOk | rivaltune/flatpak-flutter.py:110-112 | the descriptor loop fails exactly when some descriptor lacks its type, or a patch lacks its path |
| ForeignDeps.SourcesContributionValue | rivaltune/flatpak-flutter.py:110-125 | with every descriptor readable, the loop emits every descriptor once, in order, with dest substituted, and the copies of the patches whose file exists, in order |
| ForeignDeps.PatchCopy | rivaltune/flatpak-flutter.py:112-118 | a descriptor's file is copied, from the foreign-deps directory to its own path, exactly when it is a patch whose file exists |
| ForeignDeps.PatchCopiesAppend | rivaltune/flatpak-flutter.py:110-118 | the copies of one more descriptor come after those of the earlier ones |
| ForeignDeps.Contribution | rivaltune/flatpak-flutter.py:101-125 | when it succeeds, one rule adds as many extra pubspecs, Cargo lockfiles and descriptors as it lists, at most one copy per descriptor, and no warning |
| ForeignDeps.ContributionShape | rivaltune/flatpak-flutter.py:101-125 | one rule adds each extra pubspec and Cargo lockfile path in order with `$PUB_DEV` replaced (and `$APP` left alone), every descriptor once in order with `$PUB_DEV` then `$APP` replaced in `dest` and unchanged without one, the copies of existing patch files, and no warning |
| ForeignDeps.AppendPaths | rivaltune/flatpak-flutter.py:102-108 | the loop over `extra_pubspecs` or `cargo_locks` appends each path in order with `$PUB_DEV` replaced |
| ForeignDeps.AppendSources | rivaltune/flatpak-flutter.py:110-125 | the descriptor loop appends exactly the descriptors and copies `SourcesContribution` gives, or stops with its error |
| ForeignDeps.AppendDependency | rivaltune/flatpak-flutter.py:101-125 | the closure's three loops append exactly the rule's contribution to the accumulated lists, or stop with its error |
| ForeignDeps.ForeignParts | rivaltune/flatpak-flutter.py:127-130 | one contribution per value of foreign.json |
| ForeignDeps.TableParts | rivaltune/flatpak-flutter.py:136-154 | one contribution per entry of the override table |
| ForeignDeps.SequenceAppend | rivaltune/flatpak-flutter.py:127-154 | running two lists of steps one after the other is running their concatenation |
| ForeignDeps.ResolveOrder | rivaltune/flatpak-flutter.py:127-138 | foreign.json's outputs come before all override-table outputs; an error in foreign.json wins, then one in the table |
| ForeignDeps.Resolve | rivaltune/flatpak-flutter.py:95-156 | the resolution runs foreign.json's contributions and then the override table's, as one sequence of steps |
| ForeignDeps.EntryContribution | rivaltune/flatpak-flutter.py:137-154 | an entry whose package is not locked adds nothing; otherwise it warns exactly when the package is not hosted on pub.dev |
| ForeignDeps.PubDevToken | rivaltune/flatpak-flutter.py:151 | the `$PUB_DEV` text starts with `.` and ends with `/{name}-{version}` |
| ForeignDeps.LockedEntries | rivaltune/flatpak-flutter.py:137 | only entries whose package is in the lockfile are kept |
| ForeignDeps.TableOnlyLockedNames | rivaltune/flatpak-flutter.py:136-138 | walking the whole table or just its locked entries, in table order, gives the same result |
| ForeignDeps.NonHostedSkipped | rivaltune/flatpak-flutter.py:141-154 | a package not hosted on pub.dev adds nothing to any list and exactly one warning, yet an unreadable locked version still fails it |
| ForeignDeps.HostedUsesCacheToken | rivaltune/flatpak-flutter.py:150-152 | a hosted package applies the chosen rule with `$PUB_DEV` standing for `.{PUB_CACHE}/hosted/pub.dev/{name}-{version}` |
| ForeignDeps.ApplyEntry | rivaltune/flatpak-flutter.py:137-154 | one pass of the table loop appends exactly the entry's contribution |
| ForeignDeps.ApplyForeign | rivaltune/flatpak-flutter.py:127-130 | the loop over foreign.json's values returns their contributions in order, stopping at the first error |
| ForeignDeps.ApplyTable | rivaltune/flatpak-flutter.py:136-154 | the loop over the override table appends the entries' contributions in table order, stopping at the first error |
| ForeignDeps.HandleForeignDependencies | rivaltune/flatpak-flutter.py:95-156 | the whole function returns `Resolve`: foreign.json first, then the override table |
| ForeignDeps.DestSubstitutionExample | rivaltune/flatpak-flutter.py:120-123 | `$PUB_DEV/vendor/$APP/foo` becomes `{token}/vendor/{app}/foo` for a cache token without `$` |
| PackageConfig.IdDirectory | rivaltune/flatpak-flutter.py:186 | `{app}-{build_id}` is the app name, a dash and more |
| PackageConfig.RewritePackageConfig | rivaltune/flatpak-flutter.py:184-186 | the accumulation loop yields the concatenation of the rewritten lines |
| PackageConfig.RewriteLine | rivaltune/flatpak-flutter.py:186 | a line holding neither the id directory nor the (non-empty) absolute path is copied unchanged |
| PackageConfig.Rewritten | rivaltune/flatpak-flutter.py:184-186 | when every line is left as it is, the output is the input text |
| PackageConfig.RewrittenAppend | rivaltune/flatpak-flutter.py:185-186 | one more line appends just that line's rewrite |
| PackageConfig.RewrittenIsWholeText | rivaltune/flatpak-flutter.py:185-186 | rewriting `readlines()` line by line is rewriting the whole text at once when neither pattern holds a newline |
| PackageConfig.IdDirectoryBecomesSandboxPath | rivaltune/flatpak-flutter.py:181-186 | `{root}/{app}-{build_id}` becomes `/run/build/{app}` with the absolute path taken as `{root}/{app}` |
| PackageConfig.IdBearingPathIsNotReplaced | rivaltune/flatpak-flutter.py:181-186 | with the id-bearing path as the absolute path, the host path would stay in the output |
| SourceLists.DirectoryOf | rivaltune/flatpak-flutter.py:162-168 | a directory read back from a lockfile path rebuilds that path |
| SourceLists.DirectoryOfAppFile | rivaltune/flatpak-flutter.py:162-168 | the lockfile path `{build_path}/{app}/{dir}/{file}` determines `dir` |
| SourceLists.PubspecLockPaths | rivaltune/flatpak-flutter.py:161-168 | the app's lockfile, flutter_tools' lockfile, then one lockfile per extra directory, in order |
| SourceLists.PubspecLockPathsOrder | rivaltune/flatpak-flutter.py:160-168 | the app lockfile first, flutter_tools' second, then one lockfile per extra, in order |
| SourceLists.BuildPubspecLockPaths | rivaltune/flatpak-flutter.py:161-168 | the append loop builds exactly that list |
| SourceLists.PubspecSources | rivaltune/flatpak-flutter.py:170-175 | the generator's descriptors unchanged, then the `package_config.json` descriptor last |
| SourceLists.CargoLockPaths | rivaltune/flatpak-flutter.py:196-197 | one `Cargo.lock` path under the app directory per lock directory, in order |
| SourceLists.RustupCopy | rivaltune/flatpak-flutter.py:205 | `rustup.json` is copied from under the releases directory to `rustup-1.83.0.json` |
| SourceLists.CargoLockPathsOrder | rivaltune/flatpak-flutter.py:196-197 | one `Cargo.lock` path per lock directory, in order |
| SourceLists.PlanCargoSources | rivaltune/flatpak-flutter.py:192-205 | no lockfiles: nothing happens; otherwise one path per lockfile and the copy of `rustup.json` for Rust 1.83.0 |
| SourceLists.ThresholdParses | rivaltune/flatpak-flutter.py:209 | `3.35.0` reads as the release 3, 35, 0 |
| SourceLists.SharedPatchCopy | rivaltune/flatpak-flutter.py:209-212 | the pre-3.35 patch exactly for tags before 3.35.0 and the current one otherwise, both copied to `flutter-shared.sh.patch`; an unreadable tag is `InvalidVersion` |
| SourceLists.SharedPatchMonotone | rivaltune/flatpak-flutter.py:209-212 | a tag later than one that gets the current patch gets it too |
| SourceLists.SharedPatchExample | rivaltune/flatpak-flutter.py:209-212 | 3.35.0 gets the current patch and 3.32.8 the pre-3.35 one |
| SourceLists.SdkSourceFor | rivaltune/flatpak-flutter.py:214-220 | the prepared SDK description is copied exactly when it exists, and generated from the checkout otherwise, both as `flutter-sdk-{tag}.json` |
| SourceLists.SdkModule | rivaltune/flatpak-flutter.py:208-220 | the patch choice comes first, so an unreadable tag fails before the SDK description |
| Manifest.Stops | rivaltune/flatpak-flutter.py:280 | a module without a name, or a file name shorter than `name`, never stops the loop; a written-out module stops it only when named after the app module |
| Manifest.Extended | rivaltune/flatpak-flutter.py:281-284 | extending fails exactly when there is something to add and no source list; otherwise the module keeps its name and other keys and its list gains the additions at the end |
| Manifest.Patch | rivaltune/flatpak-flutter.py:279-285 | when it succeeds, the module list keeps its length and every module is either unchanged or the same named module |
| Manifest.Added | rivaltune/flatpak-flutter.py:281-284 | the descriptors in order, then `cargo-sources.json` exactly when there are Cargo lockfiles |
| Manifest.PatchChangesOnlyByExtending | rivaltune/flatpak-flutter.py:279-285 | a module the patch changes is the written-out app module with a source list, whose sources gained the additions at the end |
| Manifest.PatchWithoutMatch | rivaltune/flatpak-flutter.py:279-285 | when no module stops the loop, the manifest is unchanged |
| Manifest.PatchAtFirstStop | rivaltune/flatpak-flutter.py:279-285 | at the first stopping module: a file name is a TypeError; at the app module only that module changes, its sources becoming old ++ descriptors ++ (`cargo-sources.json` with Cargo lockfiles); a KeyError without a source list; nothing with nothing to add |
| Manifest.PatchManifest | rivaltune/flatpak-flutter.py:279-285 | the in-place loop with `break` leaves the array as `Patch` says, and unchanged on an error |
| Manifest.PatchExample | rivaltune/flatpak-flutter.py:279-285 | modules `a` and `myapp` with two descriptors: `myapp` gets exactly those two, in order, and `a` is unchanged |
| Acquire.CloneOptions | rivaltune/flatpak-flutter.py:36-53 | `git clone --depth 1 {url} {build_path}/{name}`, with `--branch {branch}` after `clone` when a branch is given |
| Acquire.CloneOptionsWithBranch | rivaltune/flatpak-flutter.py:37-53 | naming a branch only inserts `--branch {branch}` |
| Acquire.ClonedManifestPath | rivaltune/flatpak-flutter.py:54 | the manifest is looked for inside the directory `git clone` is told to create |
| Acquire.GetManifestFromGit | rivaltune/flatpak-flutter.py:54-63 | clone only when the manifest is not in the clone directory yet, then copy it out and remove the clone |
| Acquire.RawUrlAsWritten | rivaltune/flatpak-flutter.py:251-252 | the raw URL built from the path up to its first `.git` |
| Acquire.RawUrl | rivaltune/flatpak-flutter.py:251-252 | the raw URL built from the path without its trailing `.git` |
| Acquire.RawUrlIgnoresGitSuffix | rivaltune/flatpak-flutter.py:251-252 | a repository path with or without the `.git` ending names the same raw file |
| Acquire.RawUrlAgreesWithoutGit | rivaltune/flatpak-flutter.py:251-252 | for a path without `.git` the code's URL is the intended one |
| Acquire.RawUrlAsWrittenTruncates | rivaltune/flatpak-flutter.py:251 | a `.git` before the end cuts the path, giving a shorter URL than intended |
| Acquire.RawUrlAsWrittenExample | rivaltune/flatpak-flutter.py:251-252 | `/owner/owner.github.io.git` is read as `/owner/owner` by the code and as `/owner/owner.github.io` by the corrected form |
| Acquire.AcquireManifest | rivaltune/flatpak-flutter.py:247-255 | no (or an empty) `--from-git`: local; github.com with a branch: download, to the manifest's name, of the raw URL built from the path up to its first `.git`; otherwise a clone |
| Acquire.AcquireManifestCorrected | rivaltune/flatpak-flutter.py:247-255 | the same choice, downloading the raw URL built from the path without its trailing `.git` |
| Acquire.AcquireManifestCorrectedAgrees | rivaltune/flatpak-flutter.py:247-255 | the two choices differ only in the download URL, and not at all for a path without `.git` |
| Acquire.AcquireManifestExample | rivaltune/flatpak-flutter.py:250-253 | for `/owner/owner.github.io.git` with a branch, the code downloads from `/owner/owner` and the corrected form from `/owner/owner.github.io` |
| Orchestrator.AppPubspec | rivaltune/flatpak-flutter.py:257 | `.` without `--app-pubspec`, the option's value otherwise |
| Orchestrator.CommaList | rivaltune/flatpak-flutter.py:267-270 | an absent option adds nothing; a present one splits into at least one comma-free entry whose join is the option |
| Orchestrator.Main | rivaltune/flatpak-flutter.py:244-285 | the run does nothing exactly when there is no tag; a finished run resolves the foreign dependencies with `$APP` standing for the app pubspec path and the foreign-deps directory under the program's directory, appends the command-line lists, builds the lockfile lists, the `package_config.json` rewrite with the absolute app path, the Cargo plan exactly when there are Cargo lockfiles, and the SDK module from the releases directory, and returns the manifest as `Patch` leaves it |
| Orchestrator.MainStopsWithoutTag | rivaltune/flatpak-flutter.py:260 | without a tag the run succeeds with nothing done |
| Orchestrator.MainErrors | rivaltune/flatpak-flutter.py:260-285 | with a tag, the resolution's error comes first, then an unreadable tag, then the manifest patch's error |
| Orchestrator.MainListsOrder | rivaltune/flatpak-flutter.py:265-272 | command-line extras and Cargo lockfiles follow the resolved ones, and the pubspec lockfiles follow the same order |
| Orchestrator.CargoOptionAddsCargoSources | rivaltune/flatpak-flutter.py:269-284 | any `--cargo-locks`, even an empty one, runs the Cargo step, and every module the run changes is the app module, whose sources become the old ones followed by the additions, ending with `cargo-sources.json` |
| Orchestrator.CargoOptionExtendsAppModule | rivaltune/flatpak-flutter.py:269-285 | with `--cargo-locks`, when the first module that stops the loop is the app module with a source list, the patched manifest is the input with just that module's sources extended, ending with `cargo-sources.json` |
| Orchestrator.DefaultAppToken | rivaltune/flatpak-flutter.py:257-265 | without `--app-pubspec`, the resolution Main runs has `$APP` standing for `.`, so a descriptor with dest `$APP/x` comes out with dest `./x` and nothing else changed |

## Left out

- File and stream I/O is left out: reading and writing JSON and YAML, the YAML `Dumper` (lines 30-32), the header of a YAML output, and choosing the parser by suffix (`_fetch_flutter_app`, lines 66-83; lines 177-189, 287-295). The parsed data and the file contents are inputs.
- Subprocesses and the network are left out: `git clone` runs, `_create_pub_cache` (`flutter pub get`, lines 86-92) and `urlretrieve`. The model emits the clone arguments and the download instead. A failing clone raises `CalledProcessError`; that is not modelled.
- The generators `fetch_flutter_app`, `generate_sdk`, `generate_pubspec_sources` and the asynchronous `generate_cargo_sources` are external code. Their outputs are inputs, or the inputs handed to them are the result.
- Filesystem side effects are emitted as values and not performed: copies, directory creation before a patch copy, and the removal of build directories (lines 297-299, not modelled).
- `argparse`, `--version` and the `FLATPAK_FLUTTER_ROOT` lookup (lines 224-245) are left out. The program directory `parent` is an input.
- `os.getcwd()` and `Path.absolute()` are left out. The absolute app path of line 181 is the input `absAppPath`; line 96's path is used only to open `pubspec.lock`, which is I/O.
- The `KeyError`s of a malformed lockfile or manifest are not modelled: `deps['packages']` (line 137), `dep['version']` (line 141), `dep['source']` (line 150) and `manifest['modules']` (line 279). A locked package always has a version and a source here, and the manifest always has a module list.
- An error result does not undo what the code did before raising. A patch copy made at line 118 before a later descriptor's `KeyError` has already happened, and `pubspec-sources.json`, `package_config.json`, `cargo-sources.json` and the rustup copy are written before `Version(tag)` can fail at line 209. The model returns only the error.
- `urllib.parse.urlparse` is left out. Its hostname and path are inputs.
- Warnings are collected as package names, not printed.
- Versions.ParseVersion: only final releases `N(.N)*` are read. Versions with epochs, pre-, post-, dev- or local segments, a leading `v` or surrounding spaces are accepted by `packaging` but read as `InvalidVersion` here.
- PackageConfig.RewriteLine: the build id is a natural number; a negative id, and its `-` sign in `str(build_id)`, is not modelled.
- ForeignDeps.SubstituteDest: the code writes the new `dest` back into the loaded JSON descriptor. The model returns a new descriptor, so aliasing of the loaded data is not modelled; the code never reads that data again.
- Manifest.PatchManifest: the modules are values in an array. The in-place extension of the module's own list object is one element write, and aliasing between module objects is not modelled.
- JSON values are taken to be strings where the code applies `str(...)`. Other JSON types are not modelled.
- rivaltune/tools/generate_linux_icons.py is not part of this model: it only resizes images through PIL.

## Findings

| source | as written | input that shows it | evidently intended | confidence | as-written member | corrected member |
|---|---|---|---|---|---|---|
| rivaltune/flatpak-flutter.py:251 | the repository path is cut at its first `.git`, wherever it occurs | `--from-git https://github.com/owner/owner.github.io.git --from-git-branch main`: the path `/owner/owner.github.io.git` becomes `/owner/owner`, so the raw URL names another repository | remove only a trailing `.git` | not executed; high | Acquire.RawUrlAsWritten, Acquire.AcquireManifest (Acquire.RawUrlAsWrittenExample, Acquire.AcquireManifestExample, Acquire.RawUrlAsWrittenTruncates) | Acquire.RawUrl, Acquire.AcquireManifestCorrected (Acquire.RawUrlIgnoresGitSuffix, Acquire.RawUrlAgreesWithoutGit, Acquire.AcquireManifestCorrectedAgrees) |
