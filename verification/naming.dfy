/**
 * Names the action derives from its inputs: the workspace and project
 * directory, the patch version, the project name and the package file name
 * and path.
 */
module Naming {
  import opened Wrappers
  import opened Text
  import opened Paths

  /** Number of leading characters of the commit hash kept in the patch version. */
  const ShortShaLength: nat := 6
  const PatchTag := "+patch."
  const PackageExtension := ".tar.gz"

  /**
   * `GITHUB_WORKSPACE` as the action reads it: an unset or empty variable is
   * an error, anything else is the workspace path.
   */
  function GithubWorkspace(env: Option<string>): (ws: Option<string>)
    ensures ws.Some? <==> env.Some? && env.value != ""
    ensures ws.Some? ==> ws.value == env.value
  {
    if env.None? || env.value == "" then None else Some(env.value)
  }

  /** The project directory: the `project_dir` input under the workspace. */
  function ProjectDir(workspace: string, projectDirInput: string): (dir: string)
    ensures StartsWith(dir, workspace + [Sep])
    ensures dir[|workspace| + 1..] == projectDirInput
  {
    workspace + [Sep] + projectDirInput
  }

  /** `substr(0, 6)` of the commit hash: the first six characters, or all of a shorter hash. */
  function ShortSha(sha: string): (h: string)
    ensures |h| == if |sha| < ShortShaLength then |sha| else ShortShaLength
    ensures StartsWith(sha, h)
  {
    if |sha| <= ShortShaLength then sha else sha[..ShortShaLength]
  }

  /** The patch version: the base version, "+patch." and the short commit hash. */
  function PatchVersion(baseVersion: string, sha: string): (v: string)
    ensures StartsWith(v, baseVersion + PatchTag)
    ensures |v| == |baseVersion| + |PatchTag| + |ShortSha(sha)|
    ensures v[|baseVersion| + |PatchTag|..] == ShortSha(sha)
  {
    var v := baseVersion + PatchTag + ShortSha(sha);
    assert v[..|baseVersion + PatchTag|] == baseVersion + PatchTag;
    v
  }

  /**
   * Reads a patch version back: the text before the last "+", which must
   * start "+patch.", is the base version and the rest the short hash.
   */
  function SplitPatchVersion(v: string): (parts: Option<(string, string)>) {
    match LastIndexOf(v, '+')
    case None => None
    case Some(i) =>
      if StartsWith(v[i..], PatchTag) then Some((v[..i], v[i + |PatchTag|..])) else None
  }

  /** A patch version built from a hash without "+" splits back into its parts. */
  lemma SplitPatchVersionRoundTrip(baseVersion: string, sha: string)
    requires '+' !in sha
    ensures SplitPatchVersion(PatchVersion(baseVersion, sha)) == Some((baseVersion, ShortSha(sha)))
  {
    var h := ShortSha(sha);
    assert '+' !in h by {
      assert forall k | 0 <= k < |h| :: h[k] == sha[k];
    }
    var rest := "patch." + h;
    assert '+' !in "patch.";
    assert '+' !in rest;
    var v := PatchVersion(baseVersion, sha);
    assert v == baseVersion + ['+'] + rest;
    LastIndexOfAfter(baseVersion, '+', rest);
    assert v[|baseVersion|..] == PatchTag + h;
    assert v[..|baseVersion|] == baseVersion;
  }

  /** Whatever splits as a patch version is the base version, "+patch." and the hash part. */
  lemma SplitPatchVersionSound(v: string, baseVersion: string, hash: string)
    requires SplitPatchVersion(v) == Some((baseVersion, hash))
    ensures v == baseVersion + PatchTag + hash
    ensures '+' !in hash
  {
    var i := LastIndexOf(v, '+').value;
    assert baseVersion == v[..i] && hash == v[i + |PatchTag|..];
    assert v[i..i + |PatchTag|] == PatchTag;
    assert v == v[..i] + v[i..i + |PatchTag|] + v[i + |PatchTag|..];
    var tail := v[i + 1..];
    assert '+' !in tail;
    assert forall k | 0 <= k < |hash| :: hash[k] == tail[|PatchTag| - 1 + k];
  }

  /** `project_name`, or the repository name when that input is empty. */
  function ProjectName(projectNameInput: string, repo: string): (name: string)
    ensures name == repo || name == projectNameInput
    ensures name == projectNameInput <==> projectNameInput != "" || repo == ""
  {
    if projectNameInput == "" then repo else projectNameInput
  }

  /** The package file name: project name, "-", patch version and ".tar.gz". */
  function PackageFile(projectName: string, patchVersion: string): (f: string)
    ensures StartsWith(f, projectName + "-")
    ensures EndsWith(f, PackageExtension)
    ensures |f| == |projectName| + 1 + |patchVersion| + |PackageExtension|
    ensures f[|projectName| + 1..|f| - |PackageExtension|] == patchVersion
  {
    var f := projectName + "-" + patchVersion + PackageExtension;
    assert f[..|projectName| + 1] == projectName + "-";
    assert f[|f| - |PackageExtension|..] == PackageExtension;
    assert f[|projectName| + 1..|f| - |PackageExtension|] == patchVersion;
    f
  }

  /** The package path: the package file directly under the workspace. */
  function PackagePath(workspace: string, packageFile: string): (path: string)
    ensures StartsWith(path, workspace + [Sep])
    ensures EndsWith(path, packageFile)
    ensures |path| == |workspace| + 1 + |packageFile|
  {
    var path := workspace + [Sep] + packageFile;
    assert path[..|workspace| + 1] == workspace + [Sep];
    assert path[|path| - |packageFile|..] == packageFile;
    path
  }

  /** The package lies directly in the workspace, under its own file name. */
  lemma PackagePathInWorkspace(workspace: string, packageFile: string)
    requires NormalDir(workspace) && Name(packageFile)
    ensures DirName(PackagePath(workspace, packageFile)) == workspace
    ensures BaseName(PackagePath(workspace, packageFile)) == packageFile
  {
    JoinSplit(workspace, packageFile);
  }

  /** Two runs on the same base version and the same first six hash characters name the same patch. */
  lemma PatchVersionUsesSixCharacters(baseVersion: string, sha1: string, sha2: string)
    requires |sha1| >= ShortShaLength && |sha2| >= ShortShaLength
    requires sha1[..ShortShaLength] == sha2[..ShortShaLength]
    ensures PatchVersion(baseVersion, sha1) == PatchVersion(baseVersion, sha2)
  {
  }

  lemma PatchVersionExamples()
    ensures PatchVersion("5.60", "abcdef1234") == "5.60+patch.abcdef"
    ensures PatchVersion("5.60", "ab") == "5.60+patch.ab"
  {
    assert ShortSha("abcdef1234") == "abcdef1234"[..6] == "abcdef";
    assert ShortSha("ab") == "ab";
  }

  lemma PackageFileExample()
    ensures PackageFile("myext", "5.60+patch.abcdef") == "myext-5.60+patch.abcdef.tar.gz"
  {
    assert PackageFile("myext", "5.60+patch.abcdef") == "myext" + "-" + "5.60+patch.abcdef" + PackageExtension;
  }

  lemma PackagePathExample()
    ensures PackagePath("/ws", "myext-5.60+patch.abcdef.tar.gz") == "/ws/" + "myext-5.60+patch.abcdef.tar.gz"
  {
    assert "/ws" + [Sep] == "/ws/";
  }
}
