/**
 * The action as it runs: the project directory, the commands started, the
 * failure messages and outputs and the archive are fields that each step
 * updates in place. Every method is proved to leave exactly the state the
 * matching function of module Pipeline describes.
 */
module Action {
  import opened Wrappers
  import opened Text
  import opened Paths
  import opened Naming
  import opened Stamping
  import opened Pipeline

  class ActionRunner {
    var files: FileTree
    var execLog: seq<Exec>
    var failures: seq<string>
    var outputs: map<string, string>
    var archive: Option<Archive>

    function State(): (snapshot: Snapshot)
      reads this
    {
      Snapshot(files, execLog, failures, outputs, archive)
    }

    /** A runner over a checked-out project, before any command. */
    constructor (checkout: FileTree)
      ensures State() == Snapshot(checkout, [], [], map[], None)
    {
      files := checkout;
      execLog := [];
      failures := [];
      outputs := map[];
      archive := None;
    }

    /** `createPatchFile`: collect `git diff`'s output chunk by chunk, then write `patch.diff`. */
    method CreatePatchFile(tools: Tools, projectDir: string, baseVersion: string) returns (patchFile: Result<string>)
      modifies this
      ensures State() == CreatePatchFileStep(old(State()), tools, projectDir, baseVersion).state
      ensures patchFile == CreatePatchFileStep(old(State()), tools, projectDir, baseVersion).result
    {
      var path := projectDir + [Sep] + PatchFileName;
      var patchContent := "";
      execLog := execLog + [GitDiffExec(baseVersion)];
      if tools.gitDiff.None? {
        return Err(CommandFailed(GitDiffExec(baseVersion)));
      }
      var chunks := tools.gitDiff.value;
      var i := 0;
      while i < |chunks|
        invariant 0 <= i <= |chunks|
        invariant patchContent == Concat(chunks[..i])
      {
        assert chunks[..i + 1][..i] == chunks[..i];
        patchContent := patchContent + chunks[i];
        i := i + 1;
      }
      assert chunks[..i] == chunks;
      files := files[PatchFileName := patchContent];
      patchFile := Ok(path);
    }

    /** `patchProject`: create the patch file, apply it with `patch -p1`, then `rm` it. */
    method PatchProject(tools: Tools, projectDir: string, baseVersion: string) returns (r: Result<()>)
      modifies this
      ensures State() == PatchProjectStep(old(State()), tools, projectDir, baseVersion).state
      ensures r == PatchProjectStep(old(State()), tools, projectDir, baseVersion).result
    {
      var patchFile := CreatePatchFile(tools, projectDir, baseVersion);
      if patchFile.Err? {
        return Err(patchFile.error);
      }
      var diff := files[PatchFileName];
      execLog := execLog + [ApplyExec(projectDir)];
      match tools.patch(files)
      case Rejected(t) =>
        files := t[PatchFileName := diff];
        r := Err(CommandFailed(ApplyExec(projectDir)));
      case Applied(t) =>
        files := t[PatchFileName := diff];
        execLog := execLog + [RemoveExec(projectDir)];
        files := files - {PatchFileName};
        assert files == t - {PatchFileName};
        r := Ok(());
    }

    /** `setCiviCrmVersion`: the sed substitution in `xml/version.xml`. */
    method SetCiviCrmVersion(projectDir: string, version: string) returns (r: Result<()>)
      requires SedLiteral(version)
      modifies this
      ensures State() == CoreStampStep(old(State()), projectDir, version).state
      ensures r == CoreStampStep(old(State()), projectDir, version).result
    {
      execLog := execLog + [SedExec(projectDir, version)];
      if VersionFile !in files {
        return Err(CommandFailed(SedExec(projectDir, version)));
      }
      files := files[VersionFile := StampVersionXml(files[VersionFile], version)];
      r := Ok(());
    }

    /** `setDrupalModulePatchVersion`: list the directory and append the patch line to each ".info" entry. */
    method SetDrupalModulePatchVersion(version: string)
      modifies this
      ensures files == DrupalStamped(old(files), version)
      ensures execLog == old(execLog) && failures == old(failures)
      ensures outputs == old(outputs) && archive == old(archive)
    {
      var entries := set k | k in files && Sep !in k;
      var pending := entries;
      while pending != {}
        invariant pending <= entries
        invariant files.Keys == old(files).Keys
        invariant forall k | k in old(files) ::
          files[k] == if k in entries - pending && EndsWith(k, InfoSuffix) then old(files)[k] + PatchLine(version) else old(files)[k]
        invariant execLog == old(execLog) && failures == old(failures)
        invariant outputs == old(outputs) && archive == old(archive)
        decreases pending
      {
        var file :| file in pending;
        if EndsWith(file, InfoSuffix) {
          files := files[file := files[file] + PatchLine(version)];
        }
        pending := pending - {file};
      }
    }

    /** `setPatchVersionInformationInTheProject`: choose the stamping by project type. */
    method SetPatchVersionInformationInTheProject(projectType: string, projectDir: string, version: string)
      returns (r: Result<()>)
      requires StampModelled(projectType, version)
      modifies this
      ensures State() == StampStep(old(State()), projectType, projectDir, version).state
      ensures r == StampStep(old(State()), projectType, projectDir, version).result
    {
      match ParseProjectType(projectType)
      case CiviCrmCore =>
        r := SetCiviCrmVersion(projectDir, version);
      case DrupalModule =>
        SetDrupalModulePatchVersion(version);
        r := Ok(());
      case CiviCrmExtension =>
        r := Ok(());
      case Unrecognised =>
        failures := failures + [UnrecognisedTypeMessage];
        r := Ok(());
    }

    /** `packageFiles`: name the package and run `tar czf` from the project's parent directory. */
    method PackageFiles(tools: Tools, env: Option<string>, projectName: string, version: string, projectDir: string)
      returns (r: Result<Package>)
      modifies this
      ensures State() == PackageStep(old(State()), tools, env, projectName, version, projectDir).state
      ensures r == PackageStep(old(State()), tools, env, projectName, version, projectDir).result
    {
      ghost var step := PackageStep(State(), tools, env, projectName, version, projectDir);
      var workspace := GithubWorkspace(env);
      if workspace.None? {
        return Err(WorkspaceNotDefined);
      }
      var packageFile := PackageFile(projectName, version);
      var packagePath := PackagePath(workspace.value, packageFile);
      var projectDirParent := DirName(projectDir);
      var dirToPackage := BaseName(projectDir);
      execLog := execLog + [TarExec(packagePath, projectDir)];
      if !tools.tarSucceeds {
        assert step.state == State();
        return Err(CommandFailed(TarExec(packagePath, projectDir)));
      }
      archive := Some(Archive(packagePath, projectDirParent, dirToPackage, files));
      r := Ok(Package(packageFile, packagePath));
      assert step.state == State();
    }

    /** `run`: the whole job, stopping at the first step that fails. */
    method Run(tools: Tools, env: Option<string>, inputs: Inputs, ctx: Context) returns (r: Result<()>)
      requires RunModelled(inputs, ctx)
      modifies this
      ensures State() == RunSteps(old(State()), tools, env, inputs, ctx).state
      ensures r == RunSteps(old(State()), tools, env, inputs, ctx).result
    {
      var baseVersion := inputs.baseVersion;
      var workspace := GithubWorkspace(env);
      if workspace.None? {
        return Err(WorkspaceNotDefined);
      }
      var projectDir := ProjectDir(workspace.value, inputs.projectDir);
      var patchVersion := PatchVersion(baseVersion, ctx.sha);
      var projectName := ProjectName(inputs.projectName, ctx.repo);

      r := PatchProject(tools, projectDir, baseVersion);
      if r.Err? {
        return;
      }
      r := SetPatchVersionInformationInTheProject(inputs.projectType, projectDir, patchVersion);
      if r.Err? {
        return;
      }
      var package := PackageFiles(tools, env, projectName, patchVersion, projectDir);
      if package.Err? {
        return Err(package.error);
      }
      outputs := outputs["version" := patchVersion];
      outputs := outputs["package" := package.value.file];
      outputs := outputs["package_path" := package.value.path];
      r := Ok(());
    }
  }
}
