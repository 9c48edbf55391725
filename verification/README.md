# create-patch-from-fork, modelled in Dafny

A GitHub Action that builds a patch from the `<base_version>-patches` branch of
a fork, applies it to a checked-out project, writes a patch version
(`<base_version>+patch.<first six characters of the commit hash>`) into the
project's metadata, and archives the project as
`<project_name>-<patch version>.tar.gz` in the workspace.

The model has seven modules:

- `Wrappers`: `Option`.
- `Text`: `startsWith`/`endsWith`, a literal global replace (sed's `s@…@…@g` when nothing in it is special to sed), the count of a tag, concatenating stdout chunks.
- `Paths`: Node's POSIX `path.dirname` and `path.basename`, including trailing separators, the root, and the `//` prefix.
- `Naming`: the workspace, project directory, patch version, project name, and package file name and path.
- `Stamping`: the project directory as a map from relative path to text, and the two stampings (civicrm-core and drupal-module).
- `Pipeline`: every step of the action as a function from the state it finds to the state it leaves and its result. It covers creating the patch file, patching, stamping, packaging and the whole run. The lemmas state the patch-file lifecycle, step order, outputs and failure behaviour.
- `Action`: class `ActionRunner`. Its fields are the project directory, the commands started, the `setFailed` messages, the outputs and the archive, and its methods update them in place. The loops are the `git diff` stdout listener and the directory walk of the drupal-module stamping. Each method is proved to leave exactly the state its `Pipeline` step function describes, except `SetDrupalModulePatchVersion`: it is proved to turn the files into `Stamping.DrupalStamped` of the old files and to leave every other field unchanged.

External tools are an abstract command runner (`Pipeline.Tools`):
- `git diff` yields its stdout chunks or fails.
- `patch -p1` yields the directory it leaves behind and whether it succeeded. It does not alter the patch file it reads.
- `tar` succeeds or fails.

A failing command is a rejected `exec`, so the step raises and the run stops. Every command is recorded (`Exec`) with its arguments and working directory exactly as the action passes them. `git diff` runs without a `cwd` option, so it runs in the inherited directory (`None`).

Behaviours of the code worth knowing; the model follows the code in each:
- The comment above `setPatchVersionInformationInTheProject` (src/action.js:142-144) says a CiviCRM extension's version is set inside its `info.xml`, but the `civicrm-extension` case (src/action.js:161-162) does nothing; the model leaves such a project unchanged.
- An unrecognised `project_type` only records "Non-recognized project type!" through `setFailed` and does not raise, so the run still packages and sets its outputs.
- `patch.diff` is removed only after `patch -p1` succeeds; when the apply fails, it stays.
- The module stamping is not awaited by the code; the model completes it before packaging (see Left out).

## Model

| member | source | states |
|---|---|---|
| Naming.GithubWorkspace | src/action.js:10-19 | an unset or empty `GITHUB_WORKSPACE` gives no workspace (the run raises); otherwise the variable's value |
| Naming.ProjectDir | src/action.js:27-31 | the project directory is the workspace, a separator, then the `project_dir` input, which can be read back after the separator |
| Naming.ShortSha | src/action.js:134 | the short hash is a prefix of the commit hash of length min(6, hash length): a shorter hash is kept whole, unpadded |
| Naming.PatchVersion | src/action.js:133-137 | the patch version starts with base version + "+patch." and continues with exactly the short hash |
| Naming.SplitPatchVersionRoundTrip | src/action.js:133-137 | a patch version built from a hash without "+" can be split back into its base version and short hash |
| Naming.SplitPatchVersionSound | src/action.js:133-137 | whatever splits as a patch version is base version + "+patch." + a hash part free of "+" |
| Naming.PatchVersionUsesSixCharacters | src/action.js:134 | two hashes that agree on their first six characters give the same patch version |
| Naming.PatchVersionExamples | src/action.js:133-137 | "5.60" with hash "abcdef1234" gives "5.60+patch.abcdef"; with hash "ab" it gives "5.60+patch.ab" |
| Naming.PackageFileExample | src/action.js:181 | project "myext" at version "5.60+patch.abcdef" is packaged as "myext-5.60+patch.abcdef.tar.gz" |
| Naming.PackagePathExample | src/action.js:182 | in workspace "/ws" the package "myext-5.60+patch.abcdef.tar.gz" lies at "/ws/" followed by that file name |
| Naming.ProjectName | src/action.js:209 | the name is `project_name` unless that input is empty, in which case it is the repository name |
| Naming.PackageFile | src/action.js:181 | the package file starts with project name + "-", ends with ".tar.gz", and holds exactly the patch version between them |
| Naming.PackagePath | src/action.js:182 | the package path is exactly one separator longer than workspace and package file together |
| Naming.PackagePathInWorkspace | src/action.js:182 | for a workspace without a trailing separator, dirname of the package path is the workspace and basename is the package file |
| Paths.DirName | src/action.js:183 | Node's POSIX `dirname`: the result is ".", "/", "//", or a proper prefix of the path that the path continues with a separator; an absolute path keeps an absolute parent |
| Paths.BaseName | src/action.js:184 | Node's POSIX `basename`: the result holds no separator and is a suffix of the path without trailing separators, either all of it or starting just after a separator |
| Paths.JoinSplit | src/action.js:183-184 | for dir without trailing separator and a single name, dirname/basename of dir + sep + name give dir and name back, and parent + sep + base rebuilds the path |
| Paths.TrailingSepIgnored | src/action.js:183-184 | a trailing separator does not change basename, nor dirname of a non-empty path |
| Text.ReplaceAll | src/action.js:48 | the `g` substitution: text in which the tag is never found is returned unchanged |
| Text.ReplaceAllLength | src/action.js:48 | the `g` substitution replaces every occurrence: the text grows by the occurrence count times the length difference between replacement and tag |
| Text.ReplaceAllUnchangedIffAbsent | src/action.js:48 | with a replacement longer than the tag, the text is unchanged exactly when the tag does not occur |
| Text.ReplaceAllKeepsCount | src/action.js:48 | inserting a comment before every tag whose first character does not recur keeps the tag count |
| Text.Concat | src/action.js:90-101 | the patch content is the stdout chunks joined in order; no chunks give "" |
| Stamping.ParseProjectType | src/action.js:152-165 | each of the three recognised `project_type` strings, and only it, selects its stamping |
| Stamping.StampVersionXml | src/action.js:43-52 | sed inserts the version comment before every `</version_no>`: the text grows by the comment's length once per tag |
| Stamping.CoreStamped | src/action.js:43-52 | civicrm-core stamping succeeds exactly when `xml/version.xml` exists, keeps the same files, changes no other file, and gives `xml/version.xml` its stamped text |
| Stamping.StampVersionXmlUnchangedIffNoTag | src/action.js:43-52 | `xml/version.xml` is unchanged exactly when it has no `</version_no>` |
| Stamping.StampVersionXmlKeepsTagCount | src/action.js:43-52 | for a version without "<", the number of `</version_no>` tags is the same before and after stamping |
| Stamping.DrupalStamped | src/action.js:62-74 | drupal-module stamping keeps the set of files and only appends: every file starts with its old text |
| Stamping.DrupalStampedAppendsToInfoFiles | src/action.js:62-74 | every immediate ".info" file is its old text followed by exactly ";patch = " + version; every other file is unchanged; no file is added |
| Stamping.DrupalStampedWithoutInfoFiles | src/action.js:62-74 | drupal-module stamping changes nothing exactly when there is no immediate ".info" file |
| Stamping.StampingsAreTypeExclusive | src/action.js:43-74 | civicrm-core stamping changes no ".info" file, and drupal-module stamping never changes `xml/version.xml` |
| Pipeline.PatchFilePath | src/action.js:88 | the patch file is named `patch.diff` (its basename) and, for a project directory without a trailing separator, lies directly in it (its dirname) |
| Pipeline.CreatePatchFileStep | src/action.js:87-106 | `git diff` is the one command started; the step fails exactly when `git diff` does; failures, outputs and archive are unchanged |
| Pipeline.PatchProjectStep | src/action.js:117-122 | patching leaves failures, outputs and archive as they were, and on success no `patch.diff` remains |
| Pipeline.CoreStampStep | src/action.js:43-52 | the sed step succeeds exactly when `xml/version.xml` exists; on success the files become their civicrm-core stamping (`CoreStamped`), on failure they are unchanged; failures, outputs and archive are kept |
| Pipeline.StampStep | src/action.js:151-166 | civicrm-core files become `CoreStamped` of the old files when the step succeeds, drupal-module files become `DrupalStamped`, and the other types keep the files; outputs and archive stay as they were, and only civicrm-core can fail |
| Pipeline.PackageStep | src/action.js:180-200 | packaging succeeds exactly when there is a workspace and tar succeeds; it changes no file, failure or output, and on success the archive at the returned path holds exactly the current files |
| Pipeline.RunSteps | src/action.js:205-219 | a failed run sets no output and writes no archive; a successful one adds the outputs version, package and package_path and writes an archive |
| Pipeline.CreatePatchFileWritesDiff | src/action.js:87-106 | after `git diff`, `patch.diff` holds its stdout chunks joined in order ("" for an empty diff), no other file changes, and the result is projectDir + "/patch.diff"; a failing `git diff` writes nothing |
| Pipeline.PatchFileLifecycle | src/action.js:117-122 | `rm` runs and `patch.diff` is gone exactly when `patch -p1` succeeds, the files then being what `patch` left minus `patch.diff`; after a failed apply the files are what `patch` left with `patch.diff` holding the diff, and the run gets the apply error |
| Pipeline.StampStepFrame | src/action.js:151-166 | stamping keeps the set of files, outputs and archive; only civicrm-core starts a command (sed), and stamping fails only for civicrm-core without `xml/version.xml` |
| Pipeline.StampStepNoOpTypes | src/action.js:154-165 | civicrm-extension changes nothing; an unrecognised type changes no file, succeeds, and records "Non-recognized project type!" |
| Pipeline.RunWithoutWorkspace | src/action.js:205-209 | without a workspace the run fails with that error before any command, leaving the whole state as it was |
| Pipeline.RunOrderAndOutputs | src/action.js:205-219 | with a workspace, the run succeeds exactly when `git diff` succeeds, `patch` applies, civicrm-core has `xml/version.xml` after patching, and tar succeeds; a successful run starts git diff, patch, rm, (sed), tar in that order and sets version, package and package_path; a failed run sets no output and writes no archive |
| Pipeline.RunArchivesStampedProject | src/action.js:180-200 | the archive holds the files `patch` left, without `patch.diff`, then stamped for the project type: `CoreStamped` for civicrm-core, `DrupalStamped` for drupal-module, unchanged otherwise; tar runs from dirname(projectDir) over basename(projectDir), i.e. from the workspace over `project_dir` when that is a single name |
| Pipeline.RunContinuesAfterUnrecognisedType | src/action.js:211-218 | with an unrecognised type and succeeding commands, the run succeeds, records the failure message, archives the unstamped patched files, and sets the outputs |
| Pipeline.RunPackageName | src/action.js:209-217 | the version output is the patch version, and the package output is named after `project_name`, or after the repository when that input is empty |
| Pipeline.RunStopsAtFailedApply | src/action.js:117-122 | a failed apply ends the run with that error: no rm, stamping, tar or outputs; the files are what `patch` left, with `patch.diff` holding the diff |
| Pipeline.RunStopsAtMissingVersionFile | src/action.js:211-214 | a civicrm-core project without `xml/version.xml` fails at sed, with no archive and no outputs |
| Action.ActionRunner.CreatePatchFile | src/action.js:87-106 | accumulates the stdout chunks in a loop and writes them to `patch.diff`; the new state is `CreatePatchFileStep` of the old one |
| Action.ActionRunner.PatchProject | src/action.js:117-122 | create, apply, then remove the patch file in place; the new state is `PatchProjectStep` of the old one |
| Action.ActionRunner.SetCiviCrmVersion | src/action.js:43-52 | runs sed on `xml/version.xml` in place; the new state is `CoreStampStep` of the old one |
| Action.ActionRunner.SetDrupalModulePatchVersion | src/action.js:62-74 | walks the immediate entries and appends to each ".info" file in place; the files become `DrupalStamped` of the old files and nothing else changes |
| Action.ActionRunner.SetPatchVersionInformationInTheProject | src/action.js:151-166 | dispatches on the project type; the new state is `StampStep` of the old one |
| Action.ActionRunner.PackageFiles | src/action.js:180-200 | names the package and runs tar from the project's parent; the new state is `PackageStep` of the old one |
| Action.ActionRunner.Run | src/action.js:205-219 | runs the whole job, stopping at the first failing step; the new state and result are `RunSteps` of the old state |

## Left out

- What `git diff` outputs, how `patch -p1` matches hunks and strips paths, and the tar/gzip format: these are external programs. They are abstract tool results; the archive is its path, working directory, root entry and the files it holds.
- `@actions/core` (`getInput`, including its whitespace trimming), `@actions/github` (`context.sha`, `context.repo.repo`), `process.env` and `console.log`: these are foreign calls. Inputs, commit hash, repository name and `GITHUB_WORKSPACE` are parameters; `setOutput` and `setFailed` are recorded in fields.
- `path.resolve` of `GITHUB_WORKSPACE` (making it absolute and normalising it): the workspace is used as given, and the path lemmas state the normal form they need.
- `path.sep` on Windows: the separator is "/".
- Stamping.StampVersionXml: requires a version with no "@", "&", "\" or line break, because sed would read those as delimiter, match reference, escape or line end rather than as text. Stamping.CoreStamped, Pipeline.CoreStampStep, Pipeline.StampStep and Pipeline.RunSteps carry the same condition for civicrm-core.
- Action.ActionRunner.SetCiviCrmVersion: requires the same sed-literal version.
- Action.ActionRunner.Run: requires the sed-literal version when the project type is civicrm-core, for the same reason.
- Action.ActionRunner.SetDrupalModulePatchVersion: the code does not await the `fs.readdir` callback, so in reality the appends can race with `tar`. The model finishes the appends before packaging. A `readdir` error, which makes the code call `setFailed` and then throw inside the callback, is not modelled.
- A directory entry whose name ends in ".info" (appending to it would throw): the directory model holds files only.
- The tokenisation of the command strings `patch -p1 -i <path>` and `rm <path>` by the exec library: a project path containing a space would be split. The model records the command line as given and treats the apply as the abstract tool's result.
- `rm` failing: after a successful apply the patch file exists, so the model lets `rm` succeed.
- Pipeline.CreatePatchFileStep: the stdout chunks are taken as already-decoded text. The code decodes each chunk on its own (`data.toString()`, UTF-8), so a multibyte character split across chunks, or bytes that are not UTF-8, become U+FFFD; `patch.diff` is then not the diff byte for byte. Text.Concat and Action.ActionRunner.CreatePatchFile share this simplification.
- JavaScript strings are UTF-16: `substr(0, 6)` counts code units, and the model counts characters. They agree on hexadecimal commit hashes.
- Asynchrony: every `await` is a step that completes before the next begins.
