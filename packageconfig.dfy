/**
 * The rewrite of flutter_tools' package_config.json in
 * _generate_pubspec_sources: every line loses the build id of the app's
 * directory, and the absolute build path of the app becomes its path in
 * the sandbox, so that the generated file does not depend on the host.
 */
module PackageConfig {
  import opened Strings

  const SANDBOX_ROOT := "/run/build"

  /** `{app}-{build_id}`, the name of the directory the app was fetched into. */
  function IdDirectory(app: string, buildId: nat): (r: string)
    ensures |r| > |app| && r[..|app|] == app && r[|app|] == '-'
  {
    app + "-" + NatToDecimal(buildId)
  }

  /** `{sandbox_root}/{app}`. */
  function SandboxPath(app: string): string
  {
    SANDBOX_ROOT + "/" + app
  }

  /** One line: `{app}-{build_id}` becomes `{app}`, then the absolute app path its sandbox path. */
  function RewriteLine(line: string, app: string, buildId: nat, absPath: string): (r: string)
    ensures absPath != [] && !Contains(line, IdDirectory(app, buildId)) && !Contains(line, absPath) ==> r == line
  {
    BothAbsent(line, IdDirectory(app, buildId), app, absPath, SandboxPath(app));
    ReplaceAll(ReplaceAll(line, IdDirectory(app, buildId), app), absPath, SandboxPath(app))
  }

  /** Two replacements of patterns that do not occur leave the text as it is. */
  lemma BothAbsent(s: string, p1: string, r1: string, p2: string, r2: string)
    ensures p1 != [] && p2 != [] && !Contains(s, p1) && !Contains(s, p2) ==> ReplaceAll(ReplaceAll(s, p1, r1), p2, r2) == s
  {
    if p1 != [] && p2 != [] && !Contains(s, p1) && !Contains(s, p2) {
      ReplaceAllAbsent(s, p1, r1);
      ReplaceAllAbsent(s, p2, r2);
    }
  }

  /** The lines, each rewritten, joined back together. */
  function Rewritten(lines: seq<string>, app: string, buildId: nat, absPath: string): (r: string)
    ensures (forall i :: 0 <= i < |lines| ==> RewriteLine(lines[i], app, buildId, absPath) == lines[i]) ==> r == Flatten(lines)
  {
    if lines == [] then ""
    else Rewritten(lines[..|lines| - 1], app, buildId, absPath) + RewriteLine(lines[|lines| - 1], app, buildId, absPath)
  }

  /** The text the lines were read from. */
  function Flatten(lines: seq<string>): string
  {
    if lines == [] then "" else Flatten(lines[..|lines| - 1]) + lines[|lines| - 1]
  }

  /** Lines as readlines() delivers them: each but the last ends with its newline, and none has another. */
  predicate AreLines(lines: seq<string>)
  {
    forall i :: 0 <= i < |lines| ==>
      && (i < |lines| - 1 ==> |lines[i]| > 0 && lines[i][|lines[i]| - 1] == '\n')
      && (forall k :: 0 <= k < |lines[i]| - 1 ==> lines[i][k] != '\n')
  }

  /** The accumulation loop over input.readlines(). */
  method RewritePackageConfig(lines: seq<string>, app: string, buildId: nat, absPath: string) returns (config: string)
    ensures config == Rewritten(lines, app, buildId, absPath)
  {
    config := "";
    for i := 0 to |lines|
      invariant config == Rewritten(lines[..i], app, buildId, absPath)
    {
      assert lines[..i + 1][..i] == lines[..i];
      config := config + ReplaceAll(ReplaceAll(lines[i], IdDirectory(app, buildId), app), absPath, SandboxPath(app));
    }
    assert lines[..|lines|] == lines;
  }

  /** One more line read appends just that line's rewrite. */
  lemma RewrittenAppend(lines: seq<string>, line: string, app: string, buildId: nat, absPath: string)
    ensures Rewritten(lines + [line], app, buildId, absPath)
         == Rewritten(lines, app, buildId, absPath) + RewriteLine(line, app, buildId, absPath)
  {
    assert (lines + [line])[..|lines|] == lines;
  }

  lemma NoNewlineInIdDirectory(app: string, buildId: nat)
    requires '\n' !in app
    ensures '\n' !in IdDirectory(app, buildId)
  {
    var digits := NatToDecimal(buildId);
    assert forall k :: 0 <= k < |digits| ==> IsDigit(digits[k]);
    assert '\n' !in digits;
  }

  lemma {:induction false} FlattenEndsWithNewline(lines: seq<string>)
    requires AreLines(lines) && |lines| > 1
    ensures var f := Flatten(lines[..|lines| - 1]); |f| > 0 && f[|f| - 1] == '\n'
  {
    var init := lines[..|lines| - 1];
    assert init[|init| - 1] == lines[|lines| - 2];
  }

  /**
   * Replacing line by line is replacing in the whole text at once, as long as
   * neither pattern spans a newline: the loop's output does not depend on
   * where the file is cut into lines.
   */
  lemma {:induction false} RewrittenIsWholeText(lines: seq<string>, app: string, buildId: nat, absPath: string)
    requires AreLines(lines)
    requires '\n' !in app && absPath != [] && '\n' !in absPath
    ensures Rewritten(lines, app, buildId, absPath) == RewriteLine(Flatten(lines), app, buildId, absPath)
    decreases |lines|
  {
    var id := IdDirectory(app, buildId);
    var sandbox := SandboxPath(app);
    if lines == [] {
      assert ReplaceAll("", id, app) == "";
      assert ReplaceAll("", absPath, sandbox) == "";
    } else if |lines| == 1 {
      assert lines[..0] == [];
      assert Flatten(lines) == lines[0];
    } else {
      var init := lines[..|lines| - 1];
      var last := lines[|lines| - 1];
      assert AreLines(init) by {
        forall i | 0 <= i < |init| ensures init[i] == lines[i] { }
      }
      RewrittenIsWholeText(init, app, buildId, absPath);
      NoNewlineInIdDirectory(app, buildId);
      FlattenEndsWithNewline(lines);
      var f := Flatten(init);
      ReplaceAllSplitsAt(f, last, id, app, '\n');
      ReplaceAllKeepsLast(f, id, app, '\n');
      ReplaceAllSplitsAt(ReplaceAll(f, id, app), ReplaceAll(last, id, app), absPath, sandbox, '\n');
    }
  }

  /** A text equal to the pattern is replaced as a whole. */
  lemma ReplaceAllWhole(pat: string, rep: string)
    requires pat != []
    ensures ReplaceAll(pat, pat, rep) == rep
  {
    assert pat[..|pat|] == pat && pat[|pat|..] == [];
    assert rep + [] == rep;
  }

  /**
   * With the absolute path taken, as the code takes it, from the module's
   * directory without the id (`{root}/{app}`), the id directory
   * `{root}/{app}-{build_id}` ends up as the sandbox path `/run/build/{app}`.
   */
  lemma IdDirectoryBecomesSandboxPath(root: string, app: string, buildId: nat)
    requires '/' !in app
    requires !Contains(root + "/", IdDirectory(app, buildId))
    ensures RewriteLine(root + "/" + IdDirectory(app, buildId), app, buildId, root + "/" + app) == SandboxPath(app)
  {
    var id := IdDirectory(app, buildId);
    var digits := NatToDecimal(buildId);
    assert forall k :: 0 <= k < |digits| ==> IsDigit(digits[k]);
    assert '/' !in id;
    ReplaceAllSplitsAt(root + "/", id, id, app, '/');
    ReplaceAllAbsent(root + "/", id, app);
    ReplaceAllWhole(id, app);
    assert root + "/" + app == (root + "/") + app;
    ReplaceAllWhole(root + "/" + app, SandboxPath(app));
  }

  /**
   * Were the absolute path the id directory itself, the first replacement
   * would have removed the id before the second looked for it, and the
   * host path would stay in the output.
   */
  lemma IdBearingPathIsNotReplaced(root: string, app: string, buildId: nat)
    requires '/' !in app
    requires !Contains(root + "/", IdDirectory(app, buildId))
    ensures RewriteLine(root + "/" + IdDirectory(app, buildId), app, buildId, root + "/" + IdDirectory(app, buildId))
         == root + "/" + app
  {
    var id := IdDirectory(app, buildId);
    var digits := NatToDecimal(buildId);
    assert forall k :: 0 <= k < |digits| ==> IsDigit(digits[k]);
    assert '/' !in id;
    ReplaceAllSplitsAt(root + "/", id, id, app, '/');
    ReplaceAllAbsent(root + "/", id, app);
    ReplaceAllWhole(id, app);
    assert |root + "/" + app| < |root + "/" + id|;
  }
}
