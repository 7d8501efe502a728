/**
 * Choice of the download directory.
 * The file system is a parameter: which paths exist and which are writeable.
 * `isDirectoryAvailable` and `isDirectoryWriteable` return nothing (a falsy `undefined`) for the
 * empty path, so the empty path is never usable.
 */
module Directories {
  import opened Wrappers

  datatype FileSystem = FileSystem(existing: set<string>, writeable: set<string>)

  /** `isDirectoryAvailable` */
  predicate IsDirectoryAvailable(fs: FileSystem, path: string) {
    path != "" && path in fs.existing
  }

  /** `isDirectoryWriteable` */
  predicate IsDirectoryWriteable(fs: FileSystem, path: string) {
    path != "" && path in fs.writeable
  }

  predicate Usable(fs: FileSystem, path: string) {
    IsDirectoryAvailable(fs, path) && IsDirectoryWriteable(fs, path)
  }

  /** The `[ok, path]` pair the source returns. */
  datatype Choice = Choice(ok: bool, path: string)

  /** `defaultDownloadFolderGet`: the default directory when it exists and is writeable. */
  function DefaultDownloadFolderGet(fs: FileSystem, defaultDir: string): (r: Choice)
    ensures r.ok <==> Usable(fs, defaultDir)
    ensures r.ok ==> r.path == defaultDir
    ensures !r.ok ==> r.path == ""
    ensures r.path == "" || Usable(fs, r.path)
  {
    if IsDirectoryAvailable(fs, defaultDir) then
      if IsDirectoryWriteable(fs, defaultDir) then Choice(true, defaultDir)
      else Choice(false, "")
    else Choice(false, "")
  }

  /**
   * The error notices `getDownloadDirectory` shows: the custom directory exists but is not
   * writeable, or no longer exists (both announce the reset of the setting); the default
   * directory exists but is not writeable (its text speaks of the custom directory); or there is
   * no default directory.
   */
  datatype DirectoryNotice =
    | CustomNotWriteable(path: string)
    | CustomMissing(path: string)
    | DefaultNotWriteable(path: string)
    | NoDefaultFolder

  predicate IsResetNotice(n: DirectoryNotice) {
    n.CustomNotWriteable? || n.CustomMissing?
  }

  /**
   * What `getDownloadDirectory` returns, with the custom-directory setting it leaves behind and
   * the notices it showed, in order.
   */
  datatype Selection = Selection(choice: Choice, customSetting: string, notices: seq<DirectoryNotice>)

  /**
   * `getDownloadDirectory`: a configured custom directory if it is usable; otherwise the custom
   * setting is cleared with a notice and the default directory is checked the same way, with a
   * notice when it fails too.
   */
  function GetDownloadDirectory(fs: FileSystem, customDir: string, defaultDir: string): (r: Selection)
    ensures (r.choice.ok && r.choice.path == customDir) <==> Usable(fs, customDir)
    ensures Usable(fs, customDir) ==> r.choice == Choice(true, customDir) && r.customSetting == customDir
    ensures !Usable(fs, customDir) ==> r.choice == DefaultDownloadFolderGet(fs, defaultDir)
    ensures r.customSetting == (if customDir == "" || Usable(fs, customDir) then customDir else "")
    ensures r.choice.ok <==> Usable(fs, customDir) || Usable(fs, defaultDir)
    ensures CustomNotWriteable(customDir) in r.notices
        <==> IsDirectoryAvailable(fs, customDir) && !IsDirectoryWriteable(fs, customDir)
    ensures CustomMissing(customDir) in r.notices <==> customDir != "" && !IsDirectoryAvailable(fs, customDir)
    ensures DefaultNotWriteable(defaultDir) in r.notices
        <==> !Usable(fs, customDir) && IsDirectoryAvailable(fs, defaultDir) && !IsDirectoryWriteable(fs, defaultDir)
    ensures NoDefaultFolder in r.notices <==> !Usable(fs, customDir) && !IsDirectoryAvailable(fs, defaultDir)
    ensures forall n :: n in r.notices ==>
      n in [CustomNotWriteable(customDir), CustomMissing(customDir), DefaultNotWriteable(defaultDir), NoDefaultFolder]
    ensures |r.notices| <= 2 && (|r.notices| == 2 ==> IsResetNotice(r.notices[0]) && !IsResetNotice(r.notices[1]))
    ensures r.choice.ok <==> forall n :: n in r.notices ==> IsResetNotice(n)
  {
    var custom :=
      if customDir != "" then
        if IsDirectoryAvailable(fs, customDir) then
          if IsDirectoryWriteable(fs, customDir) then Some(Choice(true, customDir))
          else None
        else None
      else None;
    match custom
    case Some(c) => Selection(c, customDir, [])
    case None =>
      var setting := if customDir != "" then "" else customDir;
      var reset :=
        if customDir == "" then []
        else if IsDirectoryAvailable(fs, customDir) then [CustomNotWriteable(customDir)]
        else [CustomMissing(customDir)];
      if IsDirectoryAvailable(fs, defaultDir) then
        if IsDirectoryWriteable(fs, defaultDir) then Selection(Choice(true, defaultDir), setting, reset)
        else Selection(Choice(false, ""), setting, reset + [DefaultNotWriteable(defaultDir)])
      else Selection(Choice(false, ""), setting, reset + [NoDefaultFolder])
  }
}
