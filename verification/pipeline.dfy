/**
 * The action's steps as functions from the state they find to the state
 * they leave and what they return. The state is the project directory, the
 * external commands started so far, the failure messages and outputs
 * reported to the runner, and the archive `tar` wrote. External tools are
 * an abstract command runner: `git diff` yields its standard output or
 * fails, `patch` yields the directory it leaves and whether it succeeded,
 * `tar` succeeds or fails.
 */
module Pipeline {
  import opened Wrappers
  import opened Text
  import opened Paths
  import opened Naming
  import opened Stamping

  /** One external command: the command (line), its arguments and its working directory (None: inherited). */
  datatype Exec = Exec(command: string, args: seq<string>, cwd: Option<string>)

  /** Why a run stops: the workspace is not defined, or a command exits non-zero. */
  datatype Error = WorkspaceNotDefined | CommandFailed(exec: Exec)

  datatype Result<T> = Ok(value: T) | Err(error: Error)

  /** What `patch -p1` leaves behind; it does not alter the patch file it reads. */
  datatype ApplyOutcome = Applied(tree: FileTree) | Rejected(tree: FileTree)

  /** The external tools' behaviour on this run. */
  datatype Tools = Tools(
    gitDiff: Option<seq<string>>,        // chunks `git diff` writes to stdout; None when it fails
    patch: FileTree -> ApplyOutcome,     // `patch -p1` run over the project directory
    tarSucceeds: bool)                   // whether `tar czf` exits 0

  /** The action's inputs, as `core.getInput` returns them ("" when not given). */
  datatype Inputs = Inputs(projectDir: string, projectType: string, projectName: string, baseVersion: string)

  /** The commit the workflow runs on, and the repository's name. */
  datatype Context = Context(sha: string, repo: string)

  /** The archive `tar` wrote: where, from which directory, which entry, and the files it holds. */
  datatype Archive = Archive(path: string, cwd: string, entry: string, tree: FileTree)

  datatype Package = Package(file: string, path: string)

  datatype Snapshot = Snapshot(
    files: FileTree,
    execLog: seq<Exec>,
    failures: seq<string>,
    outputs: map<string, string>,
    archive: Option<Archive>)

  datatype Step<T> = Step(state: Snapshot, result: Result<T>)

  const PatchFileName := "patch.diff"
  const UnrecognisedTypeMessage := "Non-recognized project type!"

  function PatchFilePath(projectDir: string): (path: string)
    ensures BaseName(path) == PatchFileName
    ensures NormalDir(projectDir) ==> DirName(path) == projectDir
  {
    var joined := projectDir + [Sep] + PatchFileName;
    assert Sep !in PatchFileName;
    assert NormalDir(projectDir) ==> DirName(joined) == projectDir by {
      if NormalDir(projectDir) {
        JoinSplit(projectDir, PatchFileName);
      }
    }
    assert StripTrailingSeps(joined) == joined;
    LastIndexOfAfter(projectDir, Sep, PatchFileName);
    assert joined[|projectDir| + 1..] == PatchFileName;
    joined
  }

  function GitDiffExec(baseVersion: string): (e: Exec) {
    Exec("git", ["--no-pager", "diff", "-p", "..origin/" + baseVersion + "-patches", ":!.github"], None)
  }

  function ApplyExec(projectDir: string): (e: Exec) {
    Exec("patch -p1 -i " + PatchFilePath(projectDir), [], Some(projectDir))
  }

  function RemoveExec(projectDir: string): (e: Exec) {
    Exec("rm " + PatchFilePath(projectDir), [], Some(projectDir))
  }

  function SedExec(projectDir: string, version: string): (e: Exec) {
    Exec("sed", ["-i", SedScript(version), VersionFile], Some(projectDir))
  }

  function TarExec(packagePath: string, projectDir: string): (e: Exec) {
    Exec("tar", ["czf", packagePath, BaseName(projectDir)], Some(DirName(projectDir)))
  }

  /** `createPatchFile`: run `git diff`, write its whole output to `patch.diff`. */
  function CreatePatchFileStep(s: Snapshot, tools: Tools, projectDir: string, baseVersion: string): (r: Step<string>)
    ensures r.state.execLog == s.execLog + [GitDiffExec(baseVersion)]
    ensures r.result.Ok? <==> tools.gitDiff.Some?
    ensures r.state.failures == s.failures && r.state.outputs == s.outputs && r.state.archive == s.archive
  {
    var s1 := s.(execLog := s.execLog + [GitDiffExec(baseVersion)]);
    match tools.gitDiff
    case None => Step(s1, Err(CommandFailed(GitDiffExec(baseVersion))))
    case Some(chunks) => Step(s1.(files := s.files[PatchFileName := Concat(chunks)]), Ok(PatchFilePath(projectDir)))
  }

  /** `patchProject`: create the patch file, apply it, and remove it once applied. */
  function PatchProjectStep(s: Snapshot, tools: Tools, projectDir: string, baseVersion: string): (r: Step<()>)
    ensures r.state.failures == s.failures && r.state.outputs == s.outputs && r.state.archive == s.archive
    ensures r.result.Ok? ==> PatchFileName !in r.state.files
  {
    var c := CreatePatchFileStep(s, tools, projectDir, baseVersion);
    if c.result.Err? then Step(c.state, Err(c.result.error))
    else
      var diff := Concat(tools.gitDiff.value);
      var s2 := c.state.(execLog := c.state.execLog + [ApplyExec(projectDir)]);
      match tools.patch(c.state.files)
      case Rejected(t) =>
        Step(s2.(files := t[PatchFileName := diff]), Err(CommandFailed(ApplyExec(projectDir))))
      case Applied(t) =>
        Step(s2.(files := t - {PatchFileName}, execLog := s2.execLog + [RemoveExec(projectDir)]), Ok(()))
  }

  /** A project type that would need sed to read the version as more than literal text is outside the model. */
  predicate StampModelled(projectType: string, version: string) {
    ParseProjectType(projectType) == CiviCrmCore ==> SedLiteral(version)
  }

  /** `setCiviCrmVersion`: sed over `xml/version.xml`, failing when that file is missing. */
  function CoreStampStep(s: Snapshot, projectDir: string, version: string): (r: Step<()>)
    requires SedLiteral(version)
    ensures r.result.Ok? <==> VersionFile in s.files
    ensures r.state.files.Keys == s.files.Keys
    ensures r.result.Ok? ==> r.state.files == CoreStamped(s.files, version).value
    ensures r.result.Err? ==> r.state.files == s.files
    ensures r.state.failures == s.failures && r.state.outputs == s.outputs && r.state.archive == s.archive
  {
    var s1 := s.(execLog := s.execLog + [SedExec(projectDir, version)]);
    match CoreStamped(s.files, version)
    case None => Step(s1, Err(CommandFailed(SedExec(projectDir, version))))
    case Some(t) => Step(s1.(files := t), Ok(()))
  }

  /** `setPatchVersionInformationInTheProject`: dispatch on the project type. */
  function StampStep(s: Snapshot, projectType: string, projectDir: string, version: string): (r: Step<()>)
    requires StampModelled(projectType, version)
    ensures r.state.outputs == s.outputs && r.state.archive == s.archive
    ensures r.result.Err? ==> ParseProjectType(projectType) == CiviCrmCore
    ensures ParseProjectType(projectType) == CiviCrmCore && r.result.Ok? ==>
      CoreStamped(s.files, version) == Some(r.state.files)
    ensures ParseProjectType(projectType) == DrupalModule ==> r.state.files == DrupalStamped(s.files, version)
    ensures ParseProjectType(projectType) in {CiviCrmExtension, Unrecognised} ==> r.state.files == s.files
  {
    match ParseProjectType(projectType)
    case CiviCrmCore => CoreStampStep(s, projectDir, version)
    case DrupalModule => Step(s.(files := DrupalStamped(s.files, version)), Ok(()))
    case CiviCrmExtension => Step(s, Ok(()))
    case Unrecognised => Step(s.(failures := s.failures + [UnrecognisedTypeMessage]), Ok(()))
  }

  /** `packageFiles`: name the package and archive the project directory from its parent. */
  function PackageStep(s: Snapshot, tools: Tools, env: Option<string>, projectName: string,
                       version: string, projectDir: string): (r: Step<Package>)
    ensures r.result.Ok? <==> GithubWorkspace(env).Some? && tools.tarSucceeds
    ensures r.state.files == s.files && r.state.failures == s.failures && r.state.outputs == s.outputs
    ensures r.result.Ok? ==>
      r.state.archive.Some? && r.state.archive.value.tree == s.files && r.state.archive.value.path == r.result.value.path
    ensures r.result.Err? ==> r.state.archive == s.archive
  {
    match GithubWorkspace(env)
    case None => Step(s, Err(WorkspaceNotDefined))
    case Some(workspace) =>
      var file := PackageFile(projectName, version);
      var path := PackagePath(workspace, file);
      var s1 := s.(execLog := s.execLog + [TarExec(path, projectDir)]);
      if tools.tarSucceeds then
        Step(s1.(archive := Some(Archive(path, DirName(projectDir), BaseName(projectDir), s.files))),
             Ok(Package(file, path)))
      else Step(s1, Err(CommandFailed(TarExec(path, projectDir))))
  }

  function SetOutputs(s: Snapshot, version: string, package: Package): (s': Snapshot) {
    s.(outputs := s.outputs["version" := version]["package" := package.file]["package_path" := package.path])
  }

  predicate RunModelled(inputs: Inputs, ctx: Context) {
    StampModelled(inputs.projectType, PatchVersion(inputs.baseVersion, ctx.sha))
  }

  /** `run`: workspace, patch version and name first, then patch, stamp, package and outputs. */
  function RunSteps(s: Snapshot, tools: Tools, env: Option<string>, inputs: Inputs, ctx: Context): (r: Step<()>)
    requires RunModelled(inputs, ctx)
    ensures r.result.Err? ==> r.state.outputs == s.outputs && r.state.archive == s.archive
    ensures r.result.Ok? ==>
      r.state.outputs.Keys == s.outputs.Keys + {"version", "package", "package_path"} && r.state.archive.Some?
  {
    match GithubWorkspace(env)
    case None => Step(s, Err(WorkspaceNotDefined))
    case Some(workspace) =>
      var projectDir := ProjectDir(workspace, inputs.projectDir);
      var version := PatchVersion(inputs.baseVersion, ctx.sha);
      var name := ProjectName(inputs.projectName, ctx.repo);
      var p := PatchProjectStep(s, tools, projectDir, inputs.baseVersion);
      if p.result.Err? then p
      else
        var st := StampStep(p.state, inputs.projectType, projectDir, version);
        if st.result.Err? then st
        else
          var pk := PackageStep(st.state, tools, env, name, version, projectDir);
          if pk.result.Err? then Step(pk.state, Err(pk.result.error))
          else Step(SetOutputs(pk.state, version, pk.result.value), Ok(()))
  }

  /**
   * `createPatchFile` leaves the concatenated `git diff` output in
   * `patch.diff`, an empty file for an empty diff, and touches no other
   * file; a failing `git diff` writes nothing.
   */
  lemma CreatePatchFileWritesDiff(s: Snapshot, tools: Tools, projectDir: string, baseVersion: string)
    ensures var r := CreatePatchFileStep(s, tools, projectDir, baseVersion);
      && r.state.execLog == s.execLog + [GitDiffExec(baseVersion)]
      && (r.result.Ok? <==> tools.gitDiff.Some?)
      && (r.result.Err? ==> r.state.files == s.files)
      && (r.result.Ok? ==>
            && r.result.value == PatchFilePath(projectDir)
            && r.state.files.Keys == s.files.Keys + {PatchFileName}
            && r.state.files[PatchFileName] == Concat(tools.gitDiff.value)
            && (tools.gitDiff.value == [] ==> r.state.files[PatchFileName] == "")
            && (forall k | k in s.files && k != PatchFileName :: r.state.files[k] == s.files[k]))
  {
  }

  /**
   * The patch file's life: it is removed, and `rm` started, exactly when
   * `patch -p1` succeeds; when the apply fails it stays with the diff it
   * was written with; when `git diff` fails nothing changes.
   */
  lemma PatchFileLifecycle(s: Snapshot, tools: Tools, projectDir: string, baseVersion: string)
    ensures var r := PatchProjectStep(s, tools, projectDir, baseVersion);
      && (tools.gitDiff.None? ==>
            r.state.files == s.files && r.state.execLog == s.execLog + [GitDiffExec(baseVersion)]
            && r.result == Err(CommandFailed(GitDiffExec(baseVersion))))
      && (tools.gitDiff.Some? ==>
            var written := s.files[PatchFileName := Concat(tools.gitDiff.value)];
            && (r.result.Ok? <==> tools.patch(written).Applied?)
            && (r.result.Ok? ==>
                  && PatchFileName !in r.state.files
                  && r.state.files == tools.patch(written).tree - {PatchFileName}
                  && r.state.execLog == s.execLog + [GitDiffExec(baseVersion), ApplyExec(projectDir), RemoveExec(projectDir)])
            && (r.result.Err? ==>
                  && PatchFileName in r.state.files
                  && r.state.files[PatchFileName] == Concat(tools.gitDiff.value)
                  && r.state.files == tools.patch(written).tree[PatchFileName := Concat(tools.gitDiff.value)]
                  && r.result == Err(CommandFailed(ApplyExec(projectDir)))
                  && r.state.execLog == s.execLog + [GitDiffExec(baseVersion), ApplyExec(projectDir)]))
      && r.state.failures == s.failures && r.state.outputs == s.outputs && r.state.archive == s.archive
  {
  }

  /** Stamping changes the files and failure messages at most; only civicrm-core starts a command. */
  lemma StampStepFrame(s: Snapshot, projectType: string, projectDir: string, version: string)
    requires StampModelled(projectType, version)
    ensures var r := StampStep(s, projectType, projectDir, version);
      && r.state.outputs == s.outputs && r.state.archive == s.archive
      && r.state.files.Keys == s.files.Keys
      && r.state.execLog == s.execLog + (if ParseProjectType(projectType) == CiviCrmCore then [SedExec(projectDir, version)] else [])
      && (r.result.Err? <==> ParseProjectType(projectType) == CiviCrmCore && VersionFile !in s.files)
  {
    if ParseProjectType(projectType) == DrupalModule {
      DrupalStampedAppendsToInfoFiles(s.files, version);
    }
  }

  /**
   * civicrm-extension leaves everything as it was; an unrecognised type
   * changes no file and does not fail the step, it only records the
   * failure message.
   */
  lemma StampStepNoOpTypes(s: Snapshot, projectType: string, projectDir: string, version: string)
    requires ParseProjectType(projectType) in {CiviCrmExtension, Unrecognised}
    ensures StampModelled(projectType, version)
    ensures var r := StampStep(s, projectType, projectDir, version);
      && r.result == Ok(())
      && r.state.files == s.files
      && r.state.failures == s.failures + (if projectType == "civicrm-extension" then [] else [UnrecognisedTypeMessage])
  {
  }

  /** Without a workspace the run fails first, before it starts any command or touches any file. */
  lemma RunWithoutWorkspace(s: Snapshot, tools: Tools, env: Option<string>, inputs: Inputs, ctx: Context)
    requires RunModelled(inputs, ctx)
    requires env.None? || env.value == ""
    ensures RunSteps(s, tools, env, inputs, ctx) == Step(s, Err(WorkspaceNotDefined))
  {
  }

  /**
   * A run succeeds exactly when every command does: `git diff` produces
   * output, `patch` applies it, sed finds `xml/version.xml` for
   * civicrm-core, and `tar` succeeds. A successful run started those
   * commands and `rm`, in that order, and set the three outputs; a failed
   * run sets no output.
   */
  lemma RunOrderAndOutputs(s: Snapshot, tools: Tools, env: Option<string>, inputs: Inputs, ctx: Context)
    requires RunModelled(inputs, ctx)
    requires env.Some? && env.value != ""
    ensures var r := RunSteps(s, tools, env, inputs, ctx);
      var projectDir := ProjectDir(env.value, inputs.projectDir);
      var version := PatchVersion(inputs.baseVersion, ctx.sha);
      var file := PackageFile(ProjectName(inputs.projectName, ctx.repo), version);
      && (r.result.Ok? <==>
            && tools.gitDiff.Some?
            && var written := s.files[PatchFileName := Concat(tools.gitDiff.value)];
            && tools.patch(written).Applied?
            && (inputs.projectType == "civicrm-core" ==> VersionFile in tools.patch(written).tree)
            && tools.tarSucceeds)
      && (r.result.Err? ==> r.state.outputs == s.outputs && r.state.archive == s.archive)
      && (r.result.Ok? ==>
            && r.state.execLog == s.execLog
                 + [GitDiffExec(inputs.baseVersion), ApplyExec(projectDir), RemoveExec(projectDir)]
                 + (if inputs.projectType == "civicrm-core" then [SedExec(projectDir, version)] else [])
                 + [TarExec(PackagePath(env.value, file), projectDir)]
            && r.state.outputs == s.outputs["version" := version]["package" := file]
                                   ["package_path" := PackagePath(env.value, file)]
            && r.state.archive.Some?)
  {
    var projectDir := ProjectDir(env.value, inputs.projectDir);
    var version := PatchVersion(inputs.baseVersion, ctx.sha);
    var p := PatchProjectStep(s, tools, projectDir, inputs.baseVersion);
    PatchFileLifecycle(s, tools, projectDir, inputs.baseVersion);
    if p.result.Ok? {
      StampStepFrame(p.state, inputs.projectType, projectDir, version);
    }
  }

  /**
   * The archive holds the project as patched and stamped, without the
   * patch file, taken from the project's parent directory with the
   * project's own name as its root entry.
   */
  lemma RunArchivesStampedProject(s: Snapshot, tools: Tools, env: Option<string>, inputs: Inputs, ctx: Context)
    requires RunModelled(inputs, ctx)
    requires env.Some? && env.value != ""
    requires RunSteps(s, tools, env, inputs, ctx).result.Ok?
    ensures var r := RunSteps(s, tools, env, inputs, ctx);
      var projectDir := ProjectDir(env.value, inputs.projectDir);
      var version := PatchVersion(inputs.baseVersion, ctx.sha);
      && r.state.archive.Some?
      && r.state.archive.value.tree == r.state.files
      && PatchFileName !in r.state.files
      && r.state.archive.value.cwd == DirName(projectDir)
      && r.state.archive.value.entry == BaseName(projectDir)
      && (NormalDir(env.value) && Name(inputs.projectDir) ==>
            r.state.archive.value.cwd == env.value && r.state.archive.value.entry == inputs.projectDir)
      && tools.gitDiff.Some?
      && var patched := tools.patch(s.files[PatchFileName := Concat(tools.gitDiff.value)]).tree - {PatchFileName};
      && (inputs.projectType == "civicrm-core" ==>
            VersionFile in patched && r.state.archive.value.tree == CoreStamped(patched, version).value)
      && (inputs.projectType == "drupal-module" ==> r.state.archive.value.tree == DrupalStamped(patched, version))
      && (inputs.projectType != "civicrm-core" && inputs.projectType != "drupal-module" ==>
            r.state.archive.value.tree == patched)
  {
    var projectDir := ProjectDir(env.value, inputs.projectDir);
    var version := PatchVersion(inputs.baseVersion, ctx.sha);
    var p := PatchProjectStep(s, tools, projectDir, inputs.baseVersion);
    PatchFileLifecycle(s, tools, projectDir, inputs.baseVersion);
    StampStepFrame(p.state, inputs.projectType, projectDir, version);
    if NormalDir(env.value) && Name(inputs.projectDir) {
      JoinSplit(env.value, inputs.projectDir);
    }
  }

  /**
   * An unrecognised project type does not stop the run: with every command
   * succeeding it records the failure message, leaves the patched files
   * unstamped, and still packages them and sets the outputs.
   */
  lemma RunContinuesAfterUnrecognisedType(s: Snapshot, tools: Tools, env: Option<string>, inputs: Inputs, ctx: Context)
    requires ParseProjectType(inputs.projectType) == Unrecognised
    requires env.Some? && env.value != ""
    requires tools.gitDiff.Some? && tools.tarSucceeds
    requires tools.patch(s.files[PatchFileName := Concat(tools.gitDiff.value)]).Applied?
    ensures RunModelled(inputs, ctx)
    ensures var r := RunSteps(s, tools, env, inputs, ctx);
      && r.result == Ok(())
      && r.state.failures == s.failures + [UnrecognisedTypeMessage]
      && r.state.archive.Some?
      && r.state.archive.value.tree == tools.patch(s.files[PatchFileName := Concat(tools.gitDiff.value)]).tree - {PatchFileName}
      && "version" in r.state.outputs
  {
  }

  /** The package is named after `project_name`, or after the repository when that input is empty. */
  lemma RunPackageName(s: Snapshot, tools: Tools, env: Option<string>, inputs: Inputs, ctx: Context)
    requires RunModelled(inputs, ctx)
    requires RunSteps(s, tools, env, inputs, ctx).result.Ok?
    ensures var r := RunSteps(s, tools, env, inputs, ctx);
      var version := PatchVersion(inputs.baseVersion, ctx.sha);
      && r.state.outputs["version"] == version
      && r.state.outputs["package"] ==
           PackageFile(if inputs.projectName == "" then ctx.repo else inputs.projectName, version)
  {
    assert env.Some? && env.value != "";
    RunOrderAndOutputs(s, tools, env, inputs, ctx);
  }

  /** A failing step ends the run with its own error, and nothing after it starts. */
  lemma RunStopsAtFailedApply(s: Snapshot, tools: Tools, env: Option<string>, inputs: Inputs, ctx: Context)
    requires RunModelled(inputs, ctx)
    requires env.Some? && env.value != "" && tools.gitDiff.Some?
    requires tools.patch(s.files[PatchFileName := Concat(tools.gitDiff.value)]).Rejected?
    ensures var r := RunSteps(s, tools, env, inputs, ctx);
      var projectDir := ProjectDir(env.value, inputs.projectDir);
      && r.result == Err(CommandFailed(ApplyExec(projectDir)))
      && r.state.execLog == s.execLog + [GitDiffExec(inputs.baseVersion), ApplyExec(projectDir)]
      && r.state.files == tools.patch(s.files[PatchFileName := Concat(tools.gitDiff.value)]).tree
                            [PatchFileName := Concat(tools.gitDiff.value)]
      && r.state.failures == s.failures && r.state.archive == s.archive && r.state.outputs == s.outputs
  {
    PatchFileLifecycle(s, tools, ProjectDir(env.value, inputs.projectDir), inputs.baseVersion);
  }

  /** A civicrm-core project without `xml/version.xml` fails at sed, after patching and before `tar`. */
  lemma RunStopsAtMissingVersionFile(s: Snapshot, tools: Tools, env: Option<string>, inputs: Inputs, ctx: Context)
    requires RunModelled(inputs, ctx)
    requires inputs.projectType == "civicrm-core"
    requires env.Some? && env.value != "" && tools.gitDiff.Some?
    requires tools.patch(s.files[PatchFileName := Concat(tools.gitDiff.value)]).Applied?
    requires VersionFile !in tools.patch(s.files[PatchFileName := Concat(tools.gitDiff.value)]).tree
    ensures var r := RunSteps(s, tools, env, inputs, ctx);
      var projectDir := ProjectDir(env.value, inputs.projectDir);
      var version := PatchVersion(inputs.baseVersion, ctx.sha);
      && r.result == Err(CommandFailed(SedExec(projectDir, version)))
      && r.state.archive == s.archive && r.state.outputs == s.outputs
  {
  }
}
