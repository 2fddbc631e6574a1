/**
 * _handle_foreign_dependencies: choosing the override rule that applies to a
 * locked package, and collecting the extra pubspec lockfiles, the extra
 * Cargo lockfiles and the extra source descriptors of every rule that
 * applies, with the `$PUB_DEV` and `$APP` placeholders filled in.
 *
 * JSON objects are sequences of (key, value) pairs in document order, as a
 * Python dict keeps them; a missing list under a rule reads as an empty one.
 */
module ForeignDeps {
  import opened Common
  import opened Strings
  import opened Versions

  const PUB_DEV_TOKEN := "$PUB_DEV"
  const APP_TOKEN := "$APP"
  const HOSTED := "hosted"
  const PATCH := "patch"

  /** A flatpak source descriptor; keys other than type, path and dest ride along unchanged. */
  datatype Source = Source(kind: Option<string>, path: Option<string>, dest: Option<string>, other: seq<(string, string)>)

  /** One override rule (an entry of foreign.json, or one version of foreign_deps.json). */
  datatype Rule = Rule(extraPubspecs: seq<string>, cargoLocks: seq<string>, sources: seq<Source>)

  /** Minimum version -> rule, in stored (ascending) order. */
  type VersionTable = seq<(string, Rule)>

  /** Package name -> its version table, in document order. */
  type OverrideTable = seq<(string, VersionTable)>

  /** An entry of the lockfile's `packages` mapping. */
  datatype LockedPackage = LockedPackage(version: string, source: string)

  /** Create the parent directories of `dst`, then copy `src` to `dst`. */
  datatype CopyOp = CopyOp(src: string, dst: string)

  /** The three lists the resolution returns, the patch copies it performs and the warnings it prints. */
  datatype Outputs = Outputs(
    extraPubspecs: seq<string>,
    cargoLocks: seq<string>,
    sources: seq<Source>,
    copies: seq<CopyOp>,
    warnings: seq<string>)

  /**
   * What the resolution consults besides its data: the text that replaces
   * `$APP`, the directory of foreign_deps.json, the files that exist, and
   * PUB_CACHE of pubspec_generator.
   */
  datatype Env = Env(app: string, foreignDepsPath: string, files: set<string>, pubCache: string)

  const Nothing := Outputs([], [], [], [], [])

  function Concat(a: Outputs, b: Outputs): Outputs
  {
    Outputs(a.extraPubspecs + b.extraPubspecs, a.cargoLocks + b.cargoLocks,
            a.sources + b.sources, a.copies + b.copies, a.warnings + b.warnings)
  }

  lemma ConcatNothing(a: Outputs)
    ensures Concat(a, Nothing) == a && Concat(Nothing, a) == a
  {
    assert a.extraPubspecs + [] == a.extraPubspecs;
    assert a.cargoLocks + [] == a.cargoLocks;
    assert a.sources + [] == a.sources;
    assert a.copies + [] == a.copies;
    assert a.warnings + [] == a.warnings;
  }

  lemma ConcatAssociative(a: Outputs, b: Outputs, c: Outputs)
    ensures Concat(Concat(a, b), c) == Concat(a, Concat(b, c))
  {
    assert (a.extraPubspecs + b.extraPubspecs) + c.extraPubspecs == a.extraPubspecs + (b.extraPubspecs + c.extraPubspecs);
    assert (a.cargoLocks + b.cargoLocks) + c.cargoLocks == a.cargoLocks + (b.cargoLocks + c.cargoLocks);
    assert (a.sources + b.sources) + c.sources == a.sources + (b.sources + c.sources);
    assert (a.copies + b.copies) + c.copies == a.copies + (b.copies + c.copies);
    assert (a.warnings + b.warnings) + c.warnings == a.warnings + (b.warnings + c.warnings);
  }

  /** Run `a`, then `b`: the first error stops everything, as a raised exception does. */
  function Then(a: Result<Outputs>, b: Result<Outputs>): Result<Outputs>
  {
    match a
    case Err(e) => Err(e)
    case Ok(x) =>
      match b
      case Err(e) => Err(e)
      case Ok(y) => Ok(Concat(x, y))
  }

  // ---------------------------------------------------------------------
  // Choosing the rule (lines 139-148)
  // ---------------------------------------------------------------------

  function Keys(table: VersionTable): (keys: seq<string>)
    ensures |keys| == |table|
    ensures forall i :: 0 <= i < |table| ==> keys[i] == table[i].0
  {
    seq(|table|, i requires 0 <= i < |table| => table[i].0)
  }

  /** `Version(key) <= Version(locked)` holds (both parse). */
  predicate Qualifies(key: string, locked: string) { VersionLe(key, locked) == Ok(true) }

  /** The walk over keys[i-1], ..., keys[0], falling back to keys[0]. */
  function SelectFrom(keys: seq<string>, i: nat, locked: string): (r: Result<nat>)
    requires 0 < |keys| && i <= |keys|
    ensures r.Ok? ==> r.value < |keys|
    decreases i
  {
    if i == 0 then Ok(0)
    else
      match VersionLe(keys[i - 1], locked)
      case Err(e) => Err(e)
      case Ok(qualifies) => if qualifies then Ok(i - 1) else SelectFrom(keys, i - 1, locked)
  }

  /** The index of the rule chosen for a package locked at `locked`. */
  function SelectRule(name: string, keys: seq<string>, locked: string): (r: Result<nat>)
    ensures r.Ok? ==> r.value < |keys|
  {
    if |keys| == 0 then Err(NoRuleVersions(name)) else SelectFrom(keys, |keys|, locked)
  }

  /** The last index below `i` whose verdict is true, or 0 when none is. */
  function LastTrue(q: seq<bool>, i: nat): (r: nat)
    requires i <= |q|
    ensures r == 0 || r < i
    decreases i
  {
    if i == 0 then 0 else if q[i - 1] then i - 1 else LastTrue(q, i - 1)
  }

  lemma {:induction false} LastTrueIsLast(q: seq<bool>, i: nat)
    requires i <= |q|
    ensures var r := LastTrue(q, i);
      && (forall j :: r < j < i ==> !q[j])
      && (i == 0 || q[r] || (r == 0 && forall j :: 0 <= j < i ==> !q[j]))
    decreases i
  {
    if i > 0 && !q[i - 1] {
      LastTrueIsLast(q, i - 1);
    }
  }

  /** With the verdicts of the keys below `i` known, the walk is LastTrue over them. */
  lemma {:induction false} SelectFromVerdicts(keys: seq<string>, i: nat, locked: string, q: seq<bool>)
    requires 0 < |keys| && i <= |keys| && i <= |q|
    requires forall k :: 0 <= k < i ==> VersionLe(keys[k], locked) == Ok(q[k])
    ensures SelectFrom(keys, i, locked) == Ok(LastTrue(q, i))
    decreases i
  {
    if i > 0 {
      assert VersionLe(keys[i - 1], locked) == Ok(q[i - 1]);
      if !q[i - 1] {
        SelectFromVerdicts(keys, i - 1, locked, q);
      }
    }
  }

  lemma SelectFromLast(keys: seq<string>, i: nat, locked: string)
    requires 0 < |keys| && i <= |keys|
    requires forall k :: 0 <= k < i ==> ParseVersion(keys[k]).Some?
    requires ParseVersion(locked).Some?
    ensures SelectFrom(keys, i, locked).Ok?
    ensures var k := SelectFrom(keys, i, locked).value;
      && k < |keys|
      && (forall j :: k < j < i ==> !Qualifies(keys[j], locked))
      && (Qualifies(keys[k], locked) || (k == 0 && forall j :: 0 <= j < i ==> !Qualifies(keys[j], locked)))
  {
    var q := seq(i, k requires 0 <= k < i => Qualifies(keys[k], locked));
    forall k | 0 <= k < i ensures VersionLe(keys[k], locked) == Ok(q[k]) {
      assert VersionLe(keys[k], locked).Ok?;
    }
    SelectFromVerdicts(keys, i, locked, q);
    LastTrueIsLast(q, i);
    var r := LastTrue(q, i);
    if i == 0 {
      assert r == 0;
    } else {
      assert r < i;
      assert q[r] == Qualifies(keys[r], locked);
    }
  }

  /**
   * With every version readable, the chosen rule is the last one in stored
   * order whose minimum version is <= the locked version (equality counts),
   * or the first rule when none is.
   */
  lemma SelectRuleChoosesLastQualifying(name: string, keys: seq<string>, locked: string)
    requires |keys| > 0
    requires forall k :: 0 <= k < |keys| ==> ParseVersion(keys[k]).Some?
    requires ParseVersion(locked).Some?
    ensures SelectRule(name, keys, locked).Ok?
    ensures var k := SelectRule(name, keys, locked).value;
      && k < |keys|
      && (forall j :: k < j < |keys| ==> !Qualifies(keys[j], locked))
      && (Qualifies(keys[k], locked) || (k == 0 && forall j :: 0 <= j < |keys| ==> !Qualifies(keys[j], locked)))
  {
    SelectFromLast(keys, |keys|, locked);
  }

  predicate StrictlyAscending(keys: seq<string>)
  {
    && (forall k :: 0 <= k < |keys| ==> ParseVersion(keys[k]).Some?)
    && (forall i, j :: 0 <= i < j < |keys| ==> Lt(ParseVersion(keys[i]).value, ParseVersion(keys[j]).value))
  }

  /**
   * For a table stored in ascending order this is the largest minimum version
   * <= the locked one, and the smallest minimum version when none is <= it.
   */
  lemma SelectRuleSortedPicksGreatest(name: string, keys: seq<string>, locked: string)
    requires |keys| > 0
    requires StrictlyAscending(keys)
    requires ParseVersion(locked).Some?
    ensures SelectRule(name, keys, locked).Ok?
    ensures var k := SelectRule(name, keys, locked).value;
      var v := (i: int) requires 0 <= i < |keys| => ParseVersion(keys[i]).value;
      && k < |keys|
      && ((exists j :: 0 <= j < |keys| && Qualifies(keys[j], locked)) ==>
            Qualifies(keys[k], locked) &&
            forall j :: 0 <= j < |keys| && Qualifies(keys[j], locked) ==> Le(v(j), v(k)))
      && ((forall j :: 0 <= j < |keys| ==> !Qualifies(keys[j], locked)) ==>
            forall j :: 0 <= j < |keys| ==> Le(v(k), v(j)))
  {
    SelectRuleChoosesLastQualifying(name, keys, locked);
    var k := SelectRule(name, keys, locked).value;
    CmpReflexive(ParseVersion(keys[k]).value);
  }

  /**
   * An unreadable locked version is an error whatever the table holds, so it
   * fails even a package that would then be skipped.
   */
  lemma SelectRuleRejectsUnreadableLocked(name: string, keys: seq<string>, locked: string)
    requires |keys| > 0
    requires ParseVersion(locked).None?
    ensures SelectRule(name, keys, locked).Err?
    ensures SelectRule(name, keys, locked).error.InvalidVersion?
  {
  }

  /** The `for ... else` walk of lines 143-148. */
  method SelectRuleIndex(name: string, keys: seq<string>, locked: string) returns (r: Result<nat>)
    ensures r == SelectRule(name, keys, locked)
  {
    var i: nat := |keys|;
    while i > 0
      invariant i <= |keys|
      invariant |keys| > 0 ==> SelectFrom(keys, i, locked) == SelectRule(name, keys, locked)
    {
      var qualifies := VersionLe(keys[i - 1], locked);
      if qualifies.Err? {
        return Err(qualifies.error);
      }
      if qualifies.value {
        return Ok(i - 1);
      }
      i := i - 1;
    }
    // The loop ran out without a break: foreign_dep_versions[0].
    if |keys| == 0 {
      return Err(NoRuleVersions(name));
    }
    return Ok(0);
  }

  // ---------------------------------------------------------------------
  // Applying one rule: the append_dependency closure (lines 101-125)
  // ---------------------------------------------------------------------

  /** `$PUB_DEV` replaced in each path; a path without the placeholder is kept as it is. */
  function SubstitutePaths(paths: seq<string>, pubDev: string): (r: seq<string>)
    ensures |r| == |paths|
    ensures forall i :: 0 <= i < |paths| && !Contains(paths[i], PUB_DEV_TOKEN) ==> r[i] == paths[i]
  {
    PlainPathsKept(paths, pubDev);
    seq(|paths|, i requires 0 <= i < |paths| => ReplaceAll(paths[i], PUB_DEV_TOKEN, pubDev))
  }

  lemma PlainPathsKept(paths: seq<string>, pubDev: string)
    ensures forall i :: 0 <= i < |paths| && !Contains(paths[i], PUB_DEV_TOKEN) ==>
      ReplaceAll(paths[i], PUB_DEV_TOKEN, pubDev) == paths[i]
  {
    forall i | 0 <= i < |paths| && !Contains(paths[i], PUB_DEV_TOKEN) {
      ReplaceAllAbsent(paths[i], PUB_DEV_TOKEN, pubDev);
    }
  }

  /**
   * `$PUB_DEV`, then `$APP`, replaced in the destination: only `dest`
   * changes, it is present exactly when it was, and a destination without
   * either placeholder is kept as it is.
   */
  function SubstituteDest(s: Source, pubDev: string, app: string): (r: Source)
    ensures r.kind == s.kind && r.path == s.path && r.other == s.other
    ensures r.dest.None? <==> s.dest.None?
    ensures s.dest.Some? && !Contains(s.dest.value, PUB_DEV_TOKEN) && !Contains(s.dest.value, APP_TOKEN) ==> r == s
  {
    match s.dest
    case None => s
    case Some(d) =>
      PlainDestKept(d, pubDev, app);
      s.(dest := Some(ReplaceAll(ReplaceAll(d, PUB_DEV_TOKEN, pubDev), APP_TOKEN, app)))
  }

  lemma PlainDestKept(d: string, pubDev: string, app: string)
    ensures !Contains(d, PUB_DEV_TOKEN) && !Contains(d, APP_TOKEN) ==>
      ReplaceAll(ReplaceAll(d, PUB_DEV_TOKEN, pubDev), APP_TOKEN, app) == d
  {
    if !Contains(d, PUB_DEV_TOKEN) && !Contains(d, APP_TOKEN) {
      ReplaceAllAbsent(d, PUB_DEV_TOKEN, pubDev);
      ReplaceAllAbsent(d, APP_TOKEN, app);
    }
  }

  /** A descriptor the closure handles without a KeyError. */
  predicate Readable(s: Source)
  {
    s.kind.Some? && (s.kind.value == PATCH ==> s.path.Some?)
  }

  /** One descriptor: its type is read, a patch is copied when its file exists, then its dest is filled in. */
  function SourceStep(s: Source, pubDev: string, env: Env): (r: Result<(Source, seq<CopyOp>)>)
    ensures r.Err? <==> !Readable(s)
    ensures r.Ok? ==> r.value.0.kind == s.kind && r.value.0.path == s.path && |r.value.1| <= 1
  {
    if s.kind.None? then Err(SourceWithoutType)
    else if s.kind.value == PATCH && s.path.None? then Err(PatchWithoutPath)
    else Ok((SubstituteDest(s, pubDev, env.app), PatchCopy(s, env)))
  }

  /** The copy of a patch descriptor's file, made only when it exists under the foreign-deps directory. */
  function PatchCopy(s: Source, env: Env): (r: seq<CopyOp>)
    requires Readable(s)
    ensures |r| <= 1
    ensures |r| == 1 <==> s.kind == Some(PATCH) && env.foreignDepsPath + "/" + s.path.value in env.files
    ensures |r| == 1 ==> r[0] == CopyOp(env.foreignDepsPath + "/" + s.path.value, s.path.value)
  {
    if s.kind.value == PATCH && env.foreignDepsPath + "/" + s.path.value in env.files
    then [CopyOp(env.foreignDepsPath + "/" + s.path.value, s.path.value)]
    else []
  }

  /** The descriptor loop: one output descriptor per input descriptor, and at most one copy each. */
  function SourcesContribution(srcs: seq<Source>, pubDev: string, env: Env): (r: Result<(seq<Source>, seq<CopyOp>)>)
    ensures r.Ok? ==> |r.value.0| == |srcs| && |r.value.1| <= |srcs|
  {
    if srcs == [] then Ok(([], []))
    else
      match SourcesContribution(srcs[..|srcs| - 1], pubDev, env)
      case Err(e) => Err(e)
      case Ok(done) =>
        match SourceStep(srcs[|srcs| - 1], pubDev, env)
        case Err(e) => Err(e)
        case Ok(step) => Ok((done.0 + [step.0], done.1 + step.1))
  }

  /** What one call of append_dependency(rule, pubDev) appends. */
  function Contribution(rule: Rule, pubDev: string, env: Env): (r: Result<Outputs>)
    ensures r.Ok? ==>
      && r.value.warnings == []
      && |r.value.extraPubspecs| == |rule.extraPubspecs|
      && |r.value.cargoLocks| == |rule.cargoLocks|
      && |r.value.sources| == |rule.sources|
      && |r.value.copies| <= |rule.sources|
  {
    match SourcesContribution(rule.sources, pubDev, env)
    case Err(e) => Err(e)
    case Ok(done) =>
      Ok(Outputs(SubstitutePaths(rule.extraPubspecs, pubDev), SubstitutePaths(rule.cargoLocks, pubDev),
                 done.0, done.1, []))
  }

  /** The copy operations, as an independent left-to-right filter over the descriptors. */
  function PatchCopies(srcs: seq<Source>, env: Env): seq<CopyOp>
    requires forall i :: 0 <= i < |srcs| ==> Readable(srcs[i])
  {
    if srcs == [] then [] else PatchCopy(srcs[0], env) + PatchCopies(srcs[1..], env)
  }

  lemma {:induction false} PatchCopiesAppend(srcs: seq<Source>, s: Source, env: Env)
    requires forall i :: 0 <= i < |srcs| ==> Readable(srcs[i])
    requires Readable(s)
    ensures forall i :: 0 <= i < |srcs + [s]| ==> Readable((srcs + [s])[i])
    ensures PatchCopies(srcs + [s], env) == PatchCopies(srcs, env) + PatchCopy(s, env)
    decreases |srcs|
  {
    var all := srcs + [s];
    assert forall i :: 0 <= i < |srcs| ==> all[i] == srcs[i];
    if srcs == [] {
      assert all[1..] == [];
    } else {
      assert all[0] == srcs[0];
      assert all[1..] == srcs[1..] + [s];
      PatchCopiesAppend(srcs[1..], s, env);
    }
  }

  /** The descriptor list that SourcesContribution builds, element by element. */
  ghost predicate DescribesSources(srcs: seq<Source>, out: seq<Source>, pubDev: string, app: string)
  {
    && |out| == |srcs|
    && forall i :: 0 <= i < |srcs| ==>
      && out[i].kind == srcs[i].kind
      && out[i].path == srcs[i].path
      && out[i].other == srcs[i].other
      && (srcs[i].dest.None? ==> out[i] == srcs[i])
      && (srcs[i].dest.Some? ==>
           out[i].dest == Some(ReplaceAll(ReplaceAll(srcs[i].dest.value, PUB_DEV_TOKEN, pubDev), APP_TOKEN, app)))
  }

  /** The descriptor loop fails exactly when some descriptor is not readable. */
  lemma {:induction false} SourcesContributionOk(srcs: seq<Source>, pubDev: string, env: Env)
    ensures SourcesContribution(srcs, pubDev, env).Ok? <==> forall i :: 0 <= i < |srcs| ==> Readable(srcs[i])
    decreases |srcs|
  {
    if srcs != [] {
      var init := srcs[..|srcs| - 1];
      var last := srcs[|srcs| - 1];
      SourcesContributionOk(init, pubDev, env);
      assert forall i :: 0 <= i < |init| ==> init[i] == srcs[i];
      assert SourceStep(last, pubDev, env).Ok? <==> Readable(last);
    }
  }

  /** One more readable descriptor extends the element-by-element description. */
  lemma DescribesSourcesAppend(srcs: seq<Source>, out: seq<Source>, s: Source, pubDev: string, env: Env)
    requires DescribesSources(srcs, out, pubDev, env.app)
    requires Readable(s)
    ensures DescribesSources(srcs + [s], out + [SourceStep(s, pubDev, env).value.0], pubDev, env.app)
  {
  }

  /** With every descriptor readable, the loop describes them all and copies the existing patches. */
  lemma {:induction false} SourcesContributionValue(srcs: seq<Source>, pubDev: string, env: Env)
    requires forall i :: 0 <= i < |srcs| ==> Readable(srcs[i])
    ensures SourcesContribution(srcs, pubDev, env).Ok?
    ensures var done := SourcesContribution(srcs, pubDev, env).value;
      && DescribesSources(srcs, done.0, pubDev, env.app)
      && done.1 == PatchCopies(srcs, env)
    decreases |srcs|
  {
    if srcs != [] {
      var init := srcs[..|srcs| - 1];
      var last := srcs[|srcs| - 1];
      assert srcs == init + [last];
      assert forall i :: 0 <= i < |init| ==> Readable(init[i]);
      SourcesContributionValue(init, pubDev, env);
      var done := SourcesContribution(init, pubDev, env).value;
      DescribesSourcesAppend(init, done.0, last, pubDev, env);
      PatchCopiesAppend(init, last, env);
    }
  }

  lemma SourcesContributionShape(srcs: seq<Source>, pubDev: string, env: Env)
    ensures SourcesContribution(srcs, pubDev, env).Ok? <==> forall i :: 0 <= i < |srcs| ==> Readable(srcs[i])
    ensures SourcesContribution(srcs, pubDev, env).Ok? ==>
      var done := SourcesContribution(srcs, pubDev, env).value;
      && DescribesSources(srcs, done.0, pubDev, env.app)
      && done.1 == PatchCopies(srcs, env)
  {
    SourcesContributionOk(srcs, pubDev, env);
    if SourcesContribution(srcs, pubDev, env).Ok? {
      SourcesContributionValue(srcs, pubDev, env);
    }
  }

  /**
   * One rule's contribution: it fails exactly when a descriptor lacks its type
   * (or a patch its path). Otherwise every extra pubspec and Cargo lockfile
   * path comes out in order with `$PUB_DEV` replaced and nothing else; every
   * descriptor comes out once, in order, whatever its type and whether its
   * patch file exists, with `$PUB_DEV` and then `$APP` replaced in its dest
   * and unchanged when it has none; a copy is made for just the patches
   * whose file exists under the foreign-deps directory; no warning.
   */
  lemma ContributionShape(rule: Rule, pubDev: string, env: Env)
    ensures Contribution(rule, pubDev, env).Ok? <==> forall i :: 0 <= i < |rule.sources| ==> Readable(rule.sources[i])
    ensures Contribution(rule, pubDev, env).Ok? ==>
      var o := Contribution(rule, pubDev, env).value;
      && |o.extraPubspecs| == |rule.extraPubspecs|
      && (forall i :: 0 <= i < |o.extraPubspecs| ==>
            o.extraPubspecs[i] == ReplaceAll(rule.extraPubspecs[i], PUB_DEV_TOKEN, pubDev))
      && |o.cargoLocks| == |rule.cargoLocks|
      && (forall i :: 0 <= i < |o.cargoLocks| ==>
            o.cargoLocks[i] == ReplaceAll(rule.cargoLocks[i], PUB_DEV_TOKEN, pubDev))
      && DescribesSources(rule.sources, o.sources, pubDev, env.app)
      && o.copies == PatchCopies(rule.sources, env)
      && o.warnings == []
  {
    SourcesContributionShape(rule.sources, pubDev, env);
  }

  lemma {:induction false} SourcesErrExtends(srcs: seq<Source>, i: nat, pubDev: string, env: Env)
    requires i <= |srcs|
    requires SourcesContribution(srcs[..i], pubDev, env).Err?
    ensures SourcesContribution(srcs, pubDev, env) == SourcesContribution(srcs[..i], pubDev, env)
    decreases |srcs| - i
  {
    if i < |srcs| {
      assert srcs[..i + 1][..i] == srcs[..i];
      SourcesErrExtends(srcs, i + 1, pubDev, env);
    } else {
      assert srcs[..i] == srcs;
    }
  }

  /** The loops of lines 103-104 and 107-108: each path appended with `$PUB_DEV` filled in. */
  method AppendPaths(acc: seq<string>, paths: seq<string>, pubDev: string) returns (r: seq<string>)
    ensures r == acc + SubstitutePaths(paths, pubDev)
  {
    r := acc;
    for i := 0 to |paths|
      invariant r == acc + SubstitutePaths(paths[..i], pubDev)
    {
      assert SubstitutePaths(paths[..i + 1], pubDev)
          == SubstitutePaths(paths[..i], pubDev) + [ReplaceAll(paths[i], PUB_DEV_TOKEN, pubDev)];
      r := r + [ReplaceAll(paths[i], PUB_DEV_TOKEN, pubDev)];
    }
    assert paths[..|paths|] == paths;
  }

  /** The loop of lines 111-125 over a rule's descriptors, appending to `sources` and `copies`. */
  method AppendSources(sources: seq<Source>, copies: seq<CopyOp>, srcs: seq<Source>, pubDev: string, env: Env)
    returns (r: Result<(seq<Source>, seq<CopyOp>)>)
    ensures match SourcesContribution(srcs, pubDev, env)
      case Err(e) => r == Err(e)
      case Ok(done) => r == Ok((sources + done.0, copies + done.1))
  {
    var outSources := sources;
    var outCopies := copies;
    for i := 0 to |srcs|
      invariant SourcesContribution(srcs[..i], pubDev, env).Ok?
      invariant outSources == sources + SourcesContribution(srcs[..i], pubDev, env).value.0
      invariant outCopies == copies + SourcesContribution(srcs[..i], pubDev, env).value.1
    {
      var source := srcs[i];
      if source.kind.None? {
        SourcesErrAt(srcs, i, pubDev, env);
        return Err(SourceWithoutType);
      }
      if source.kind.value == PATCH && source.path.None? {
        SourcesErrAt(srcs, i, pubDev, env);
        return Err(PatchWithoutPath);
      }
      SourcesContributionSnoc(srcs, i, pubDev, env);
      if source.kind.value == PATCH {
        var dstPath := source.path.value;
        var srcPath := env.foreignDepsPath + "/" + dstPath;
        if srcPath in env.files {
          outCopies := outCopies + [CopyOp(srcPath, dstPath)];
        }
      }
      if source.dest.Some? {
        var dest := ReplaceAll(source.dest.value, PUB_DEV_TOKEN, pubDev);
        dest := ReplaceAll(dest, APP_TOKEN, env.app);
        source := source.(dest := Some(dest));
      }
      assert source == SubstituteDest(srcs[i], pubDev, env.app);
      outSources := outSources + [source];
    }
    assert srcs[..|srcs|] == srcs;
    return Ok((outSources, outCopies));
  }

  /** The first unreadable descriptor after a prefix that succeeded ends the loop with its error. */
  lemma SourcesErrAt(srcs: seq<Source>, i: nat, pubDev: string, env: Env)
    requires i < |srcs| && !Readable(srcs[i])
    requires SourcesContribution(srcs[..i], pubDev, env).Ok?
    ensures SourcesContribution(srcs, pubDev, env) == Err(SourceStep(srcs[i], pubDev, env).error)
  {
    assert srcs[..i + 1][..i] == srcs[..i];
    SourcesErrExtends(srcs, i + 1, pubDev, env);
  }

  /** One more readable descriptor after a prefix that succeeded. */
  lemma SourcesContributionSnoc(srcs: seq<Source>, i: nat, pubDev: string, env: Env)
    requires i < |srcs| && Readable(srcs[i])
    requires SourcesContribution(srcs[..i], pubDev, env).Ok?
    ensures var done := SourcesContribution(srcs[..i], pubDev, env).value;
      SourcesContribution(srcs[..i + 1], pubDev, env)
        == Ok((done.0 + [SubstituteDest(srcs[i], pubDev, env.app)], done.1 + PatchCopy(srcs[i], env)))
  {
    assert srcs[..i + 1][..i] == srcs[..i];
  }


  /** The closure, appending to the lists `acc` holds. */
  method AppendDependency(acc: Outputs, rule: Rule, pubDev: string, env: Env) returns (r: Result<Outputs>)
    ensures r == Then(Ok(acc), Contribution(rule, pubDev, env))
  {
    var extraPubspecs := AppendPaths(acc.extraPubspecs, rule.extraPubspecs, pubDev);
    var cargoLocks := AppendPaths(acc.cargoLocks, rule.cargoLocks, pubDev);
    var described := AppendSources(acc.sources, acc.copies, rule.sources, pubDev, env);
    if described.Err? {
      return Err(described.error);
    }
    assert acc.warnings + [] == acc.warnings;
    return Ok(Outputs(extraPubspecs, cargoLocks, described.value.0, described.value.1, acc.warnings));
  }

  // ---------------------------------------------------------------------
  // The whole resolution (lines 95-156)
  // ---------------------------------------------------------------------

  /** `.{PUB_CACHE}/hosted/pub.dev/{name}-{version}`, the package's directory in the pub cache. */
  function PubDevToken(pubCache: string, name: string, version: string): (r: string)
    ensures |r| > 0 && r[0] == '.'
    ensures EndsWith(r, "/" + name + "-" + version)
  {
    var dir := "." + pubCache + "/hosted/pub.dev";
    var leaf := "/" + name + "-" + version;
    assert "." + pubCache + "/hosted/pub.dev/" + name + "-" + version == dir + leaf;
    assert (dir + leaf)[|dir + leaf| - |leaf|..] == leaf;
    "." + pubCache + "/hosted/pub.dev/" + name + "-" + version
  }

  /** What one entry of the override table adds (lines 137-154). */
  function EntryContribution(entry: (string, VersionTable), packages: map<string, LockedPackage>, env: Env): (r: Result<Outputs>)
    ensures entry.0 !in packages ==> r == Ok(Nothing)
    ensures r.Ok? ==>
      r.value.warnings == (if entry.0 in packages && packages[entry.0].source != HOSTED then [entry.0] else [])
  {
    var (name, versions) := entry;
    if name !in packages then Ok(Nothing)
    else
      var dep := packages[name];
      match SelectRule(name, Keys(versions), dep.version)
      case Err(e) => Err(e)
      case Ok(k) =>
        if dep.source == HOSTED
        then Contribution(versions[k].1, PubDevToken(env.pubCache, name, dep.version), env)
        else Ok(Nothing.(warnings := [name]))
  }

  /** foreign.json's values, each applied with an empty `$PUB_DEV`. */
  function ForeignParts(foreign: seq<Rule>, env: Env): (parts: seq<Result<Outputs>>)
    ensures |parts| == |foreign|
  {
    seq(|foreign|, i requires 0 <= i < |foreign| => Contribution(foreign[i], "", env))
  }

  function TableParts(table: OverrideTable, packages: map<string, LockedPackage>, env: Env): (parts: seq<Result<Outputs>>)
    ensures |parts| == |table|
  {
    seq(|table|, i requires 0 <= i < |table| => EntryContribution(table[i], packages, env))
  }

  /** The parts run one after the other. */
  function Sequence(parts: seq<Result<Outputs>>): Result<Outputs>
  {
    if parts == [] then Ok(Nothing) else Then(Sequence(parts[..|parts| - 1]), parts[|parts| - 1])
  }

  /** The value of _handle_foreign_dependencies. */
  function Resolve(foreign: seq<Rule>, table: OverrideTable, packages: map<string, LockedPackage>, env: Env): (r: Result<Outputs>)
    ensures r == Then(Sequence(ForeignParts(foreign, env)), Sequence(TableParts(table, packages, env)))
  {
    SequenceAppend(ForeignParts(foreign, env), TableParts(table, packages, env));
    Sequence(ForeignParts(foreign, env) + TableParts(table, packages, env))
  }

  lemma {:induction false} SequenceErrExtends(parts: seq<Result<Outputs>>, i: nat)
    requires i <= |parts|
    requires Sequence(parts[..i]).Err?
    ensures Sequence(parts) == Sequence(parts[..i])
    decreases |parts| - i
  {
    if i < |parts| {
      assert parts[..i + 1][..i] == parts[..i];
      SequenceErrExtends(parts, i + 1);
    } else {
      assert parts[..i] == parts;
    }
  }

  /** Running `a` then `b` is running all of `a + b`. */
  lemma {:induction false} SequenceAppend(a: seq<Result<Outputs>>, b: seq<Result<Outputs>>)
    ensures Sequence(a + b) == Then(Sequence(a), Sequence(b))
    decreases |b|
  {
    if b == [] {
      assert a + b == a;
      if Sequence(a).Ok? {
        ConcatNothing(Sequence(a).value);
      }
    } else {
      var init := b[..|b| - 1];
      assert (a + b)[..|a + b| - 1] == a + init;
      SequenceAppend(a, init);
      if Sequence(a).Ok? && Sequence(init).Ok? && b[|b| - 1].Ok? {
        ConcatAssociative(Sequence(a).value, Sequence(init).value, b[|b| - 1].value);
      }
    }
  }

  /**
   * The order of the outputs: everything foreign.json contributes comes
   * first, then the override table's contributions; an error in either
   * part is the resolution's error, foreign.json's first.
   */
  lemma ResolveOrder(foreign: seq<Rule>, table: OverrideTable, packages: map<string, LockedPackage>, env: Env)
    ensures var f := Sequence(ForeignParts(foreign, env));
      var t := Sequence(TableParts(table, packages, env));
      && (f.Err? ==> Resolve(foreign, table, packages, env) == f)
      && (f.Ok? && t.Err? ==> Resolve(foreign, table, packages, env) == t)
      && (f.Ok? && t.Ok? ==> Resolve(foreign, table, packages, env) == Ok(Concat(f.value, t.value)))
  {
    SequenceAppend(ForeignParts(foreign, env), TableParts(table, packages, env));
  }

  /** The entries of the table whose package is in the lockfile, in table order. */
  function LockedEntries(table: OverrideTable, packages: map<string, LockedPackage>): (r: OverrideTable)
    ensures forall i :: 0 <= i < |r| ==> r[i].0 in packages
  {
    if table == [] then []
    else
      var init := LockedEntries(table[..|table| - 1], packages);
      var last := table[|table| - 1];
      if last.0 in packages then init + [last] else init
  }

  /**
   * Only names present in the lockfile matter: walking the whole table or
   * just its locked entries, in table order, gives the same result.
   */
  lemma {:induction false} TableOnlyLockedNames(table: OverrideTable, packages: map<string, LockedPackage>, env: Env)
    ensures Sequence(TableParts(table, packages, env)) == Sequence(TableParts(LockedEntries(table, packages), packages, env))
    decreases |table|
  {
    if table != [] {
      var init := table[..|table| - 1];
      var last := table[|table| - 1];
      assert table == init + [last];
      TableOnlyLockedNames(init, packages, env);
      var step := EntryContribution(last, packages, env);
      TablePartsSnoc(init, last, packages, env);
      SequenceSnoc(TableParts(init, packages, env), step);
      var kept := LockedEntries(init, packages);
      if last.0 in packages {
        assert LockedEntries(table, packages) == kept + [last];
        TablePartsSnoc(kept, last, packages, env);
        SequenceSnoc(TableParts(kept, packages, env), step);
      } else {
        assert LockedEntries(table, packages) == kept;
        assert step == Ok(Nothing);
        var s := Sequence(TableParts(init, packages, env));
        if s.Ok? {
          ConcatNothing(s.value);
        }
      }
    }
  }

  lemma TablePartsSnoc(init: OverrideTable, last: (string, VersionTable), packages: map<string, LockedPackage>, env: Env)
    ensures TableParts(init + [last], packages, env) == TableParts(init, packages, env) + [EntryContribution(last, packages, env)]
  {
    var table := init + [last];
    assert forall i :: 0 <= i < |init| ==> table[i] == init[i];
  }

  lemma SequenceSnoc(parts: seq<Result<Outputs>>, p: Result<Outputs>)
    ensures Sequence(parts + [p]) == Then(Sequence(parts), p)
  {
    assert (parts + [p])[..|parts|] == parts;
  }

  /**
   * A package that is not hosted on pub.dev adds nothing to any list and
   * exactly one warning; but its version is still compared first, so an
   * unreadable version fails it all the same.
   */
  lemma NonHostedSkipped(name: string, versions: VersionTable, packages: map<string, LockedPackage>, env: Env)
    requires name in packages && packages[name].source != HOSTED
    ensures SelectRule(name, Keys(versions), packages[name].version).Ok? ==>
      EntryContribution((name, versions), packages, env) == Ok(Outputs([], [], [], [], [name]))
    ensures |versions| > 0 && ParseVersion(packages[name].version).None? ==>
      EntryContribution((name, versions), packages, env).Err?
  {
    if |versions| > 0 && ParseVersion(packages[name].version).None? {
      SelectRuleRejectsUnreadableLocked(name, Keys(versions), packages[name].version);
    }
  }

  /**
   * A hosted package applies the chosen rule with `$PUB_DEV` standing for
   * `.{PUB_CACHE}/hosted/pub.dev/{name}-{version}`.
   */
  lemma HostedUsesCacheToken(name: string, versions: VersionTable, packages: map<string, LockedPackage>, env: Env)
    requires name in packages && packages[name].source == HOSTED
    requires SelectRule(name, Keys(versions), packages[name].version).Ok?
    ensures var k := SelectRule(name, Keys(versions), packages[name].version).value;
      && k < |versions|
      && EntryContribution((name, versions), packages, env)
         == Contribution(versions[k].1, "." + env.pubCache + "/hosted/pub.dev/" + name + "-" + packages[name].version, env)
  {
  }

  /** The body of the loop over the override table (lines 137-154). */
  method ApplyEntry(acc: Outputs, entry: (string, VersionTable), packages: map<string, LockedPackage>, env: Env)
    returns (next: Result<Outputs>)
    ensures next == Then(Ok(acc), EntryContribution(entry, packages, env))
  {
    var (name, versions) := entry;
    if name !in packages {
      ConcatNothing(acc);
      return Ok(acc);
    }
    var dep := packages[name];
    var selected := SelectRuleIndex(name, Keys(versions), dep.version);
    if selected.Err? {
      return Err(selected.error);
    }
    var rule := versions[selected.value].1;
    if dep.source == HOSTED {
      var pubDev := PubDevToken(env.pubCache, name, dep.version);
      next := AppendDependency(acc, rule, pubDev, env);
    } else {
      // Warning: Skipping foreign dependency {name}, not sourced from pub.dev
      next := Ok(acc.(warnings := acc.warnings + [name]));
      assert acc.extraPubspecs + [] == acc.extraPubspecs;
      assert acc.cargoLocks + [] == acc.cargoLocks;
      assert acc.sources + [] == acc.sources;
      assert acc.copies + [] == acc.copies;
    }
  }

  lemma ThenAssociative(a: Result<Outputs>, b: Result<Outputs>, c: Result<Outputs>)
    ensures Then(Then(a, b), c) == Then(a, Then(b, c))
  {
    if a.Ok? && b.Ok? && c.Ok? {
      ConcatAssociative(a.value, b.value, c.value);
    }
  }

  /** The loop over foreign.json's values (lines 127-130). */
  method ApplyForeign(foreign: seq<Rule>, env: Env) returns (r: Result<Outputs>)
    ensures r == Sequence(ForeignParts(foreign, env))
  {
    ghost var parts := ForeignParts(foreign, env);
    var acc := Nothing;
    for i := 0 to |foreign|
      invariant Sequence(parts[..i]) == Ok(acc)
    {
      assert parts[..i + 1][..i] == parts[..i];
      var next := AppendDependency(acc, foreign[i], "", env);
      if next.Err? {
        SequenceErrExtends(parts, i + 1);
        return next;
      }
      acc := next.value;
    }
    assert parts[..|foreign|] == parts;
    return Ok(acc);
  }

  /** The loop over the override table (lines 136-154), appending to `acc`. */
  method ApplyTable(acc: Outputs, table: OverrideTable, packages: map<string, LockedPackage>, env: Env)
    returns (r: Result<Outputs>)
    ensures r == Then(Ok(acc), Sequence(TableParts(table, packages, env)))
  {
    ghost var parts := TableParts(table, packages, env);
    var current := acc;
    ConcatNothing(acc);
    for j := 0 to |table|
      invariant Then(Ok(acc), Sequence(parts[..j])) == Ok(current)
    {
      assert parts[..j + 1][..j] == parts[..j];
      ThenAssociative(Ok(acc), Sequence(parts[..j]), parts[j]);
      var next := ApplyEntry(current, table[j], packages, env);
      if next.Err? {
        SequenceErrExtends(parts, j + 1);
        return next;
      }
      current := next.value;
    }
    assert parts[..|table|] == parts;
    return Ok(current);
  }

  /** The resolution: foreign.json first, then the override table. */
  method HandleForeignDependencies(foreign: seq<Rule>, table: OverrideTable, packages: map<string, LockedPackage>, env: Env)
    returns (r: Result<Outputs>)
    ensures r == Resolve(foreign, table, packages, env)
  {
    SequenceAppend(ForeignParts(foreign, env), TableParts(table, packages, env));
    r := ApplyForeign(foreign, env);
    if r.Ok? {
      r := ApplyTable(r.value, table, packages, env);
    }
  }

  /** The three minimum versions 1.0.0, 2.0.0 and 3.0.0 read as releases. */
  lemma ExampleKeysParse()
    ensures ParseVersion("1.0.0") == Some([1, 0, 0])
    ensures ParseVersion("2.0.0") == Some([2, 0, 0])
    ensures ParseVersion("3.0.0") == Some([3, 0, 0])
  {
    assert "1.0.0" == "1" + "." + "0" + "." + "0";
    assert "2.0.0" == "2" + "." + "0" + "." + "0";
    assert "3.0.0" == "3" + "." + "0" + "." + "0";
    ParseThreeComponents("1.0.0", "1", "0", "0");
    ParseThreeComponents("2.0.0", "2", "0", "0");
    ParseThreeComponents("3.0.0", "3", "0", "0");
  }

  const EXAMPLE_KEYS := ["1.0.0", "2.0.0", "3.0.0"]

  /** The three verdicts `Version(key) <= Version(locked)` over the example's keys, for a locked release `vl`. */
  lemma ExampleVerdicts(locked: string, vl: Release, q: seq<bool>)
    requires ParseVersion(locked) == Some(vl)
    requires q == [Le([1, 0, 0], vl), Le([2, 0, 0], vl), Le([3, 0, 0], vl)]
    ensures forall k :: 0 <= k < 3 ==> VersionLe(EXAMPLE_KEYS[k], locked) == Ok(q[k])
  {
    ExampleKeysParse();
  }

  /** With rules for 1.0.0, 2.0.0 and 3.0.0, a package locked at 2.5.0 gets the 2.0.0 rule. */
  lemma SelectRuleExampleBetween(name: string)
    ensures SelectRule(name, EXAMPLE_KEYS, "2.5.0") == Ok(1)
  {
    var locked := "2.5.0";
    assert locked == "2" + "." + "5" + "." + "0";
    ParseThreeComponents(locked, "2", "5", "0");
    assert Cmp([1, 0, 0], [2, 5, 0]) == -1;
    assert Cmp([2, 0, 0], [2, 5, 0]) == -1;
    assert Cmp([3, 0, 0], [2, 5, 0]) == 1;
    var q := [true, true, false];
    ExampleVerdicts(locked, [2, 5, 0], q);
    SelectFromVerdicts(EXAMPLE_KEYS, 3, locked, q);
    assert LastTrue(q, 3) == 1;
  }

  /** A package locked at 0.5.0, below every rule, falls back to the first rule. */
  lemma SelectRuleExampleBelow(name: string)
    ensures SelectRule(name, EXAMPLE_KEYS, "0.5.0") == Ok(0)
  {
    var locked := "0.5.0";
    assert locked == "0" + "." + "5" + "." + "0";
    ParseThreeComponents(locked, "0", "5", "0");
    assert Cmp([1, 0, 0], [0, 5, 0]) == 1;
    assert Cmp([2, 0, 0], [0, 5, 0]) == 1;
    assert Cmp([3, 0, 0], [0, 5, 0]) == 1;
    var q := [false, false, false];
    ExampleVerdicts(locked, [0, 5, 0], q);
    SelectFromVerdicts(EXAMPLE_KEYS, 3, locked, q);
    assert LastTrue(q, 3) == 0;
  }

  /** A package locked at exactly 2.0.0 gets the 2.0.0 rule: the bound is inclusive. */
  lemma SelectRuleExampleEqual(name: string)
    ensures SelectRule(name, EXAMPLE_KEYS, "2.0.0") == Ok(1)
  {
    var locked := "2.0.0";
    ExampleKeysParse();
    assert Cmp([1, 0, 0], [2, 0, 0]) == -1;
    CmpReflexive([2, 0, 0]);
    assert Cmp([3, 0, 0], [2, 0, 0]) == 1;
    var q := [true, true, false];
    ExampleVerdicts(locked, [2, 0, 0], q);
    SelectFromVerdicts(EXAMPLE_KEYS, 3, locked, q);
    assert LastTrue(q, 3) == 1;
  }

  // ---------------------------------------------------------------------
  // The worked example of a destination with both placeholders
  // ---------------------------------------------------------------------

  /**
   * `$PUB_DEV/vendor/$APP/foo` with `$PUB_DEV` standing for a cache token
   * such as `.pub-cache/hosted/pub.dev/x-1.2.3` and `$APP` for an app such
   * as `myapp` becomes `{token}/vendor/{app}/foo`.
   */
  lemma DestSubstitutionExample(token: string, app: string)
    requires '$' !in token
    ensures SubstituteDest(Source(Some("archive"), None, Some(PUB_DEV_TOKEN + "/vendor/" + APP_TOKEN + "/foo"), []), token, app).dest
         == Some(token + "/vendor/" + app + "/foo")
  {
    var dest := PUB_DEV_TOKEN + "/vendor/" + APP_TOKEN + "/foo";
    var once := token + "/vendor/" + (APP_TOKEN + "/foo");
    ExamplePubDevStep(token);
    assert ReplaceAll(dest, PUB_DEV_TOKEN, token) == once;
    ExampleAppStep(token, app);
  }

  /** The first replacement of the example: only the leading `$PUB_DEV` is replaced. */
  lemma ExamplePubDevStep(token: string)
    ensures ReplaceAll(PUB_DEV_TOKEN + "/vendor/" + APP_TOKEN + "/foo", PUB_DEV_TOKEN, token)
         == token + "/vendor/" + (APP_TOKEN + "/foo")
  {
    var a, b := PUB_DEV_TOKEN + "/vendor/", APP_TOKEN + "/foo";
    assert PUB_DEV_TOKEN + "/vendor/" + APP_TOKEN + "/foo" == a + b;
    ReplaceAllSplitsAt(a, b, PUB_DEV_TOKEN, token, '/');
    ReplaceAllAtStart(PUB_DEV_TOKEN, "/vendor/", token);
    AppTokenIsNotPubDevToken(token);
  }

  /** The second replacement of the example: only the `$APP` after `{token}/vendor/` is replaced. */
  lemma ExampleAppStep(token: string, app: string)
    requires '$' !in token
    ensures ReplaceAll(token + "/vendor/" + (APP_TOKEN + "/foo"), APP_TOKEN, app) == token + "/vendor/" + app + "/foo"
  {
    var a, b := token + "/vendor/", APP_TOKEN + "/foo";
    ReplaceAllSplitsAt(a, b, APP_TOKEN, app, '/');
    ReplaceAllMissingFirst(a, APP_TOKEN, app);
    ReplaceAllAtStart(APP_TOKEN, "/foo", app);
    assert a + (app + "/foo") == token + "/vendor/" + app + "/foo";
  }

  /** `$PUB_DEV` does not occur in `$APP/foo`, though both start with `$`. */
  lemma AppTokenIsNotPubDevToken(token: string)
    ensures ReplaceAll(APP_TOKEN + "/foo", PUB_DEV_TOKEN, token) == APP_TOKEN + "/foo"
  {
    var c := APP_TOKEN + "/foo";
    assert c[..|PUB_DEV_TOKEN|] != PUB_DEV_TOKEN by {
      assert c[1] == 'A' && PUB_DEV_TOKEN[1] == 'P';
    }
    assert c[1..] == APP_TOKEN[1..] + "/foo";
    ReplaceAllMissingFirst(c[1..], PUB_DEV_TOKEN, token);
    assert c == [c[0]] + c[1..];
  }
}
