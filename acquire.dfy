/**
 * Getting the manifest when it lives in a git repository (main, lines
 * 247-255, and _get_manifest_from_git): a GitHub repository with a branch
 * is read through raw.githubusercontent.com, any other repository is
 * cloned shallowly into the build directory and the manifest copied out.
 */
module Acquire {
  import opened Common
  import opened Strings
  import opened ForeignDeps
  import opened SourceLists

  const GITHUB := "github.com"
  const RAW_HOST := "https://raw.githubusercontent.com"
  const GIT_SUFFIX := ".git"

  /** The argument list of the shallow clone into `{build_path}/{name of the manifest}`. */
  function CloneOptions(manifest: string, fromGit: string, branch: Option<string>): (r: seq<string>)
    ensures branch.None? ==> |r| == 6
    ensures branch.Some? ==> |r| == 8 && r[2] == "--branch" && r[3] == branch.value
    ensures r[..2] == ["git", "clone"]
    ensures r[|r| - 4..|r| - 1] == ["--depth", "1", fromGit]
    ensures r[|r| - 1] == BUILD_PATH + "/" + PathName(manifest)
  {
    var tail := ["--depth", "1", fromGit, BUILD_PATH + "/" + PathName(manifest)];
    if branch.None? then ["git", "clone"] + tail
    else ["git", "clone", "--branch", branch.value] + tail
  }

  /** Naming a branch only inserts `--branch {branch}` after `git clone`. */
  lemma CloneOptionsWithBranch(manifest: string, fromGit: string, branch: string)
    ensures var plain := CloneOptions(manifest, fromGit, None);
      CloneOptions(manifest, fromGit, Some(branch)) == plain[..2] + ["--branch", branch] + plain[2..]
  {
  }

  /** Where the manifest lies in the clone. */
  function ClonedManifestPath(manifest: string): (r: string)
    ensures var target := CloneOptions(manifest, "", None)[5];
      |target| <= |r| && r[..|target|] == target && r[|target|..] == "/" + manifest
  {
    BUILD_PATH + "/" + PathName(manifest) + "/" + manifest
  }

  /** _get_manifest_from_git: the clone when the manifest is not there yet, the copy out, the removal of the clone. */
  datatype GitFetch = GitFetch(clone: Option<seq<string>>, copy: CopyOp, remove: string)

  function GetManifestFromGit(manifest: string, fromGit: string, branch: Option<string>, files: set<string>): (r: GitFetch)
    ensures r.clone.None? <==> ClonedManifestPath(manifest) in files
    ensures r.clone.Some? ==> r.clone.value == CloneOptions(manifest, fromGit, branch)
    ensures r.copy == CopyOp(ClonedManifestPath(manifest), PathName(manifest))
    ensures r.remove == BUILD_PATH + "/" + PathName(manifest)
  {
    var path := ClonedManifestPath(manifest);
    var clone := if path in files then None else Some(CloneOptions(manifest, fromGit, branch));
    GitFetch(clone, CopyOp(path, PathName(manifest)), BUILD_PATH + "/" + PathName(manifest))
  }

  // ---------------------------------------------------------------------
  // The raw URL (lines 250-252)
  // ---------------------------------------------------------------------

  /** The raw URL as the code builds it: the URL path up to the first ".git", wherever it occurs. */
  function RawUrlAsWritten(urlPath: string, branch: string, manifest: string): (r: string)
    ensures |r| == |RAW_HOST| + |BeforeFirst(urlPath, GIT_SUFFIX)| + 1 + |branch| + 1 + |manifest|
  {
    RAW_HOST + BeforeFirst(urlPath, GIT_SUFFIX) + "/" + branch + "/" + manifest
  }

  /** The raw URL with only a trailing ".git" removed from the repository path. */
  function RawUrl(urlPath: string, branch: string, manifest: string): (r: string)
    ensures |r| == |RAW_HOST| + |StripSuffix(urlPath, GIT_SUFFIX)| + 1 + |branch| + 1 + |manifest|
  {
    RAW_HOST + StripSuffix(urlPath, GIT_SUFFIX) + "/" + branch + "/" + manifest
  }

  /** A clone URL with or without the ".git" ending names the same raw file. */
  lemma RawUrlIgnoresGitSuffix(repo: string, branch: string, manifest: string)
    requires !EndsWith(repo, GIT_SUFFIX)
    ensures RawUrl(repo + GIT_SUFFIX, branch, manifest) == RawUrl(repo, branch, manifest)
    ensures RawUrl(repo, branch, manifest) == RAW_HOST + repo + "/" + branch + "/" + manifest
  {
    var s := repo + GIT_SUFFIX;
    assert s[|s| - |GIT_SUFFIX|..] == GIT_SUFFIX;
    assert s[..|s| - |GIT_SUFFIX|] == repo;
  }

  /** For a repository path without ".git" in it, the code's URL is the intended one. */
  lemma RawUrlAgreesWithoutGit(urlPath: string, branch: string, manifest: string)
    requires !Contains(urlPath, GIT_SUFFIX)
    ensures RawUrlAsWritten(urlPath, branch, manifest) == RawUrl(urlPath, branch, manifest)
  {
    BeforeFirstAbsent(urlPath, GIT_SUFFIX);
    if EndsWith(urlPath, GIT_SUFFIX) {
      assert OccursAt(urlPath, GIT_SUFFIX, |urlPath| - |GIT_SUFFIX|);
    }
  }

  /**
   * A ".git" that is not the ending, as in a repository named
   * `owner.github.io`, cuts the path short: the code asks for a different
   * (and shorter) URL than the intended one.
   */
  lemma RawUrlAsWrittenTruncates(urlPath: string, branch: string, manifest: string, i: nat)
    requires OccursAt(urlPath, GIT_SUFFIX, i)
    requires forall j: nat :: j < i ==> !OccursAt(urlPath, GIT_SUFFIX, j)
    requires i + |GIT_SUFFIX| < |urlPath|
    ensures |RawUrlAsWritten(urlPath, branch, manifest)| < |RawUrl(urlPath, branch, manifest)|
  {
    BeforeFirstAt(urlPath, GIT_SUFFIX, i);
  }

  const EXAMPLE_PATH := "/owner/owner.github.io.git"

  /** In `/owner/owner.github.io.git` the first ".git" starts the ".github" of the name. */
  lemma ExamplePathFirstGit()
    ensures BeforeFirst(EXAMPLE_PATH, GIT_SUFFIX) == "/owner/owner"
  {
    var p := EXAMPLE_PATH;
    assert p[12..16] == GIT_SUFFIX;
    forall j: nat | j < 12 ensures !OccursAt(p, GIT_SUFFIX, j) {
      assert p[j] != '.';
      assert p[j..j + 4][0] == p[j];
    }
    BeforeFirstAt(p, GIT_SUFFIX, 12);
    assert p[..12] == "/owner/owner";
  }

  /** Only the final ".git" of `/owner/owner.github.io.git` is its ending. */
  lemma ExamplePathStripped()
    ensures StripSuffix(EXAMPLE_PATH, GIT_SUFFIX) == "/owner/owner.github.io"
  {
    var p := EXAMPLE_PATH;
    assert |p| == 26;
    assert p[22..] == GIT_SUFFIX;
    assert p[..22] == "/owner/owner.github.io";
  }

  /** https://github.com/owner/owner.github.io.git: the code reads the path as /owner/owner. */
  lemma RawUrlAsWrittenExample(branch: string, manifest: string)
    ensures RawUrlAsWritten(EXAMPLE_PATH, branch, manifest) == RAW_HOST + "/owner/owner" + "/" + branch + "/" + manifest
    ensures RawUrl(EXAMPLE_PATH, branch, manifest) == RAW_HOST + "/owner/owner.github.io" + "/" + branch + "/" + manifest
  {
    ExamplePathFirstGit();
    ExamplePathStripped();
  }

  // ---------------------------------------------------------------------
  // How the manifest is obtained (lines 247-255)
  // ---------------------------------------------------------------------

  /** The parts of urllib.parse.urlparse(from_git) the code reads. */
  datatype ParsedUrl = ParsedUrl(hostname: Option<string>, path: string)

  datatype Acquisition =
    /** No --from-git: the manifest is read where it is. */
    | Local
    /** The raw file is downloaded to the manifest's name. */
    | Download(url: string, target: string)
    /** The repository is cloned. */
    | Clone(fetch: GitFetch)

  /** Lines 247-255 as written: the download URL is cut at the repository path's first ".git". */
  function AcquireManifest(manifest: string, fromGit: Option<string>, url: ParsedUrl, branch: Option<string>,
                           files: set<string>): (r: Acquisition)
    ensures fromGit.None? || fromGit == Some("") ==> r == Local
    ensures r.Download? <==> fromGit.Some? && fromGit != Some("") && url.hostname == Some(GITHUB) && branch.Some?
    ensures r.Download? ==> r.url == RawUrlAsWritten(url.path, branch.value, manifest) && r.target == PathName(manifest)
    ensures r.Clone? ==> r.fetch == GetManifestFromGit(manifest, fromGit.value, branch, files)
  {
    if fromGit.None? || fromGit.value == "" then Local
    else if url.hostname == Some(GITHUB) && branch.Some? then
      Download(RawUrlAsWritten(url.path, branch.value, manifest), PathName(manifest))
    else Clone(GetManifestFromGit(manifest, fromGit.value, branch, files))
  }

  /** The same choice with only a trailing ".git" removed from the repository path. */
  function AcquireManifestCorrected(manifest: string, fromGit: Option<string>, url: ParsedUrl, branch: Option<string>,
                                    files: set<string>): (r: Acquisition)
    ensures fromGit.None? || fromGit == Some("") ==> r == Local
    ensures r.Download? <==> fromGit.Some? && fromGit != Some("") && url.hostname == Some(GITHUB) && branch.Some?
    ensures r.Download? ==> r.url == RawUrl(url.path, branch.value, manifest) && r.target == PathName(manifest)
    ensures r.Clone? ==> r.fetch == GetManifestFromGit(manifest, fromGit.value, branch, files)
  {
    if fromGit.None? || fromGit.value == "" then Local
    else if url.hostname == Some(GITHUB) && branch.Some? then
      Download(RawUrl(url.path, branch.value, manifest), PathName(manifest))
    else Clone(GetManifestFromGit(manifest, fromGit.value, branch, files))
  }

  /**
   * The two differ only in the download URL, and not at all for a
   * repository path without ".git" in it.
   */
  lemma AcquireManifestCorrectedAgrees(manifest: string, fromGit: Option<string>, url: ParsedUrl, branch: Option<string>,
                                       files: set<string>)
    ensures var written := AcquireManifest(manifest, fromGit, url, branch, files);
      var corrected := AcquireManifestCorrected(manifest, fromGit, url, branch, files);
      && (!written.Download? ==> corrected == written)
      && (written.Download? ==> corrected == written.(url := RawUrl(url.path, branch.value, manifest)))
      && (!Contains(url.path, GIT_SUFFIX) ==> corrected == written)
  {
    if !Contains(url.path, GIT_SUFFIX) && branch.Some? {
      RawUrlAgreesWithoutGit(url.path, branch.value, manifest);
    }
  }

  /** A GitHub repository whose name contains ".git", cloned with a branch, downloads from the wrong repository. */
  lemma AcquireManifestExample(manifest: string, fromGit: string, branch: string, files: set<string>)
    requires fromGit != ""
    ensures AcquireManifest(manifest, Some(fromGit), ParsedUrl(Some(GITHUB), EXAMPLE_PATH), Some(branch), files).url
              == RAW_HOST + "/owner/owner" + "/" + branch + "/" + manifest
    ensures AcquireManifestCorrected(manifest, Some(fromGit), ParsedUrl(Some(GITHUB), EXAMPLE_PATH), Some(branch), files).url
              == RAW_HOST + "/owner/owner.github.io" + "/" + branch + "/" + manifest
  {
    var url := ParsedUrl(Some(GITHUB), EXAMPLE_PATH);
    assert AcquireManifest(manifest, Some(fromGit), url, Some(branch), files)
        == Download(RawUrlAsWritten(EXAMPLE_PATH, branch, manifest), PathName(manifest));
    assert AcquireManifestCorrected(manifest, Some(fromGit), url, Some(branch), files)
        == Download(RawUrl(EXAMPLE_PATH, branch, manifest), PathName(manifest));
    RawUrlAsWrittenExample(branch, manifest);
  }

}
