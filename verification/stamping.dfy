/**
 * Writing the patch version into the project's metadata. The project
 * directory is a map from a path relative to it ("xml/version.xml",
 * "mymodule.info") to the file's text; a key without a separator is an
 * entry directly inside the directory.
 */
module Stamping {
  import opened Wrappers
  import opened Text
  import opened Paths

  type FileTree = map<string, string>

  /** The `project_type` values the action distinguishes. */
  datatype ProjectType = CiviCrmCore | DrupalModule | CiviCrmExtension | Unrecognised

  function ParseProjectType(projectType: string): (t: ProjectType)
    ensures t == CiviCrmCore <==> projectType == "civicrm-core"
    ensures t == DrupalModule <==> projectType == "drupal-module"
    ensures t == CiviCrmExtension <==> projectType == "civicrm-extension"
  {
    if projectType == "civicrm-core" then CiviCrmCore
    else if projectType == "drupal-module" then DrupalModule
    else if projectType == "civicrm-extension" then CiviCrmExtension
    else Unrecognised
  }

  const VersionFile := "xml/version.xml"
  const VersionCloseTag := "</version_no>"
  const InfoSuffix := ".info"

  /** The comment placed in front of each closing version tag. */
  function VersionComment(version: string): (comment: string) {
    "<!-- " + version + " -->"
  }

  /** The sed program `s@</version_no>@<!-- version --></version_no>@g`. */
  function SedScript(version: string): (script: string) {
    "s@" + VersionCloseTag + "@" + VersionComment(version) + VersionCloseTag + "@g"
  }

  /**
   * A version sed substitutes literally in that program: no "@" (the
   * program's delimiter), no "&" or "\" (special in a replacement), no
   * line break (sed works line by line).
   */
  predicate SedLiteral(version: string) {
    '@' !in version && '&' !in version && '\\' !in version && '\n' !in version
  }

  /** `xml/version.xml` after sed: every closing version tag is preceded by the version comment. */
  function StampVersionXml(text: string, version: string): (stamped: string)
    requires SedLiteral(version)
    ensures |stamped| == |text| + Count(text, VersionCloseTag) * |VersionComment(version)|
  {
    ReplaceAllLength(text, VersionCloseTag, VersionComment(version) + VersionCloseTag);
    ReplaceAll(text, VersionCloseTag, VersionComment(version) + VersionCloseTag)
  }

  /** Text without a closing version tag is left as it is, and text with one is changed. */
  lemma StampVersionXmlUnchangedIffNoTag(text: string, version: string)
    requires SedLiteral(version)
    ensures StampVersionXml(text, version) == text <==> !Occurs(text, VersionCloseTag)
  {
    ReplaceAllUnchangedIffAbsent(text, VersionCloseTag, VersionComment(version) + VersionCloseTag);
  }

  /** Stamping keeps the number of closing version tags when the version has no "<". */
  lemma StampVersionXmlKeepsTagCount(text: string, version: string)
    requires SedLiteral(version) && '<' !in version
    ensures Count(StampVersionXml(text, version), VersionCloseTag) == Count(text, VersionCloseTag)
  {
    var mid := "!-- " + version + " -->";
    assert VersionCloseTag[1..] == "/version_no>";
    assert '<' !in VersionCloseTag[1..];
    assert '<' !in "!-- " && '<' !in " -->";
    assert '<' !in mid;
    assert VersionComment(version) + VersionCloseTag == [VersionCloseTag[0]] + mid + VersionCloseTag;
    ReplaceAllKeepsCount(text, VersionCloseTag, mid);
  }

  /**
   * The civicrm-core stamping: `xml/version.xml` rewritten, every other file
   * as it was; no result when that file does not exist (sed fails).
   */
  function CoreStamped(files: FileTree, version: string): (r: Option<FileTree>)
    requires SedLiteral(version)
    ensures r.Some? <==> VersionFile in files
    ensures r.Some? ==> r.value.Keys == files.Keys
    ensures r.Some? ==> forall k | k in files && k != VersionFile :: r.value[k] == files[k]
    ensures r.Some? ==> r.value[VersionFile] == StampVersionXml(files[VersionFile], version)
  {
    if VersionFile in files
    then Some(files[VersionFile := StampVersionXml(files[VersionFile], version)])
    else None
  }

  /** An entry directly in the project directory whose name ends in ".info". */
  predicate IsInfoEntry(name: string) {
    Sep !in name && EndsWith(name, InfoSuffix)
  }

  /** The text appended to a module descriptor; no line break is added. */
  function PatchLine(version: string): (line: string) {
    ";patch = " + version
  }

  /** The drupal-module stamping: each immediate ".info" file gets the patch line appended. */
  function DrupalStamped(files: FileTree, version: string): (stamped: FileTree)
    ensures stamped.Keys == files.Keys
    ensures forall k | k in files :: StartsWith(stamped[k], files[k])
  {
    map k | k in files :: if IsInfoEntry(k) then files[k] + PatchLine(version) else files[k]
  }

  /**
   * The same files exist afterwards; an immediate ".info" file ends with the
   * patch line after its old text; every other file is unchanged.
   */
  lemma DrupalStampedAppendsToInfoFiles(files: FileTree, version: string)
    ensures DrupalStamped(files, version).Keys == files.Keys
    ensures forall k | k in files && IsInfoEntry(k) ::
      StartsWith(DrupalStamped(files, version)[k], files[k]) &&
      DrupalStamped(files, version)[k][|files[k]|..] == PatchLine(version)
    ensures forall k | k in files && !IsInfoEntry(k) :: DrupalStamped(files, version)[k] == files[k]
  {
    forall k | k in files && IsInfoEntry(k)
      ensures StartsWith(DrupalStamped(files, version)[k], files[k])
      ensures DrupalStamped(files, version)[k][|files[k]|..] == PatchLine(version)
    {
      var r := files[k] + PatchLine(version);
      assert r[..|files[k]|] == files[k];
      assert r[|files[k]|..] == PatchLine(version);
    }
  }

  /** A project without immediate ".info" files is left exactly as it was. */
  lemma DrupalStampedWithoutInfoFiles(files: FileTree, version: string)
    ensures (forall k | k in files :: !IsInfoEntry(k)) <==> DrupalStamped(files, version) == files
  {
    forall k | k in files && IsInfoEntry(k) ensures DrupalStamped(files, version)[k] != files[k] {
      assert DrupalStamped(files, version)[k] == files[k] + PatchLine(version);
      assert |PatchLine(version)| > 0;
      assert |DrupalStamped(files, version)[k]| > |files[k]|;
    }
  }

  /** The two stampings touch disjoint files: civicrm-core no ".info" entry, drupal-module not `xml/version.xml`. */
  lemma StampingsAreTypeExclusive(files: FileTree, version: string)
    requires SedLiteral(version)
    ensures CoreStamped(files, version).Some? ==>
      forall k | k in files && EndsWith(k, InfoSuffix) :: CoreStamped(files, version).value[k] == files[k]
    ensures VersionFile in files ==> DrupalStamped(files, version)[VersionFile] == files[VersionFile]
  {
    assert VersionFile[3] == Sep;
    assert VersionFile[|VersionFile| - |InfoSuffix|..][4] != InfoSuffix[4];
    assert !EndsWith(VersionFile, InfoSuffix);
  }
}
