/** The folder-to-download adapter of internal/adapter/nadapter/fsadapter.go.
    A folder becomes a download listing its files; its page comes from the
    folder's index page (or the default one) when the folder has no
    description file, and from markdown otherwise. The markdown branch
    stops at getFrontmatter, which panics. Template parsing and execution
    are one function parameter, `renderIndex`. */
module NAdapter {
  import opened Common
  import opened Entity
  import opened Folder

  /** How a folder's page is built. */
  datatype ParseMode = Index | DefaultIndex | MdCustomTemplate | MdDefaultTemplate

  /** The value Go gives each mode: the modes share the const block of
      lines 27-44 with nine constants before them, so `iota` is 9 to 12. */
  function ModeValue(m: ParseMode): int
  {
    match m
    case Index => 9
    case DefaultIndex => 10
    case MdCustomTemplate => 11
    case MdDefaultTemplate => 12
  }

  const ModeNames: seq<string> := ["Index", "DefaultIndex", "MDCustom", "MDDefault"]

  /** ParseMode.String as written: the raw value indexes a four-entry
      table; any other value is an index-out-of-range panic. */
  function ModeStringAsWritten(v: int): (r: Result<string>)
    ensures r.Ok? <==> 0 <= v < 4
    ensures r.Ok? ==> r.value == ModeNames[v]
  {
    if 0 <= v < |ModeNames| then Ok(ModeNames[v]) else Err(Panic("index out of range"))
  }

  /** Every declared mode makes the as-written String panic. */
  lemma ModeStringAsWrittenPanics(m: ParseMode)
    ensures ModeStringAsWritten(ModeValue(m)).Err?
  {
  }

  /** ParseMode.String as evidently intended: the table indexed by the
      mode's position, its value less that of the first mode. */
  function ModeString(m: ParseMode): (name: string)
    ensures name == ModeNames[ModeValue(m) - ModeValue(Index)]
  {
    ModeNames[ModeValue(m) - ModeValue(Index)]
  }

  /** The corrected String names the modes apart, each by its own name. */
  lemma ModeStringNames(m: ParseMode, n: ParseMode)
    ensures ModeString(m) == ModeString(n) <==> m == n
    ensures ModeString(Index) == "Index" && ModeString(DefaultIndex) == "DefaultIndex" &&
            ModeString(MdCustomTemplate) == "MDCustom" && ModeString(MdDefaultTemplate) == "MDDefault"
  {
  }

  /** The adapter's configuration (config.FSAdapterConfig). */
  datatype Config = Config(
    indexPageFileName: string,
    descFileName: string,
    templateFileName: string,
    skipFiles: seq<string>)

  class FsAdapter {
    const fs: FileSystem
    const paths: Paths
    const cfg: Config
    /** The file names readFiles never lists. */
    const skipFiles: set<string>
    /** The download URL of a file's source path (the path cleaning of line 452). */
    const fileUrl: string -> string
    /** parseIndex: getTemplate and buildTemplate of a folder's index page
        for a download; an error is the one parseIndex returns. */
    const renderIndex: (string, Download) -> Result<string>

    /** NewFSAdapterWithFS: the skip set is the index page, the description
        and the template names, and every configured name. */
    constructor(fs: FileSystem, paths: Paths, cfg: Config, fileUrl: string -> string,
                renderIndex: (string, Download) -> Result<string>)
      ensures this.fs == fs && this.paths == paths && this.cfg == cfg
      ensures this.fileUrl == fileUrl && this.renderIndex == renderIndex
      ensures skipFiles == {cfg.indexPageFileName, cfg.descFileName, cfg.templateFileName} +
                           set i | 0 <= i < |cfg.skipFiles| :: cfg.skipFiles[i]
    {
      var skip := SkipSet({cfg.indexPageFileName, cfg.descFileName, cfg.templateFileName}, cfg.skipFiles);
      this.fs := fs;
      this.paths := paths;
      this.cfg := cfg;
      this.fileUrl := fileUrl;
      this.renderIndex := renderIndex;
      skipFiles := skip;
    }

    /** The file readFiles makes of entry `name` of `folderPath`: its id is
        the hash of its source path; a failed Stat leaves the size 0 and a
        failed MIME probe leaves the type empty. */
    function MakeFile(folderPath: string, name: string): File
    {
      var sourcePath := paths.join(folderPath, name);
      File(paths.hash(sourcePath), name, "", sourcePath, fileUrl(sourcePath),
           if fs.size(sourcePath).Some? then fs.size(sourcePath).value else 0,
           if fs.mimeType(sourcePath).Ok? then fs.mimeType(sourcePath).value else "")
    }

    /** The file readFiles makes of an entry of a folder. */
    function FileOf(folderPath: string): string -> File
    {
      name => MakeFile(folderPath, name)
    }

    /** The download ToDownload builds before its page is rendered. */
    function Skeleton(folderPath: string, entries: seq<DirEntry>, now: int): (d: Download)
      ensures d.id == paths.hash(folderPath) && d.title == paths.base(folderPath) && d.enabled
      ensures d.sourcePath == folderPath && d.createdAt == now && d.files == FolderFiles(entries, skipFiles, FileOf(folderPath))
      ensures d.pageContent == "" && d.pageHash == ""
    {
      Download(paths.hash(folderPath), paths.base(folderPath), "", "", true,
               FolderFiles(entries, skipFiles, FileOf(folderPath)), folderPath, now)
    }

    /** getParseMode: the first rule that holds decides. */
    function GetParseMode(folderPath: string): (m: ParseMode)
      ensures m == Index <==> fs.fileExists(paths.join(folderPath, cfg.indexPageFileName))
      ensures m == DefaultIndex <==>
                !fs.fileExists(paths.join(folderPath, cfg.indexPageFileName)) &&
                !fs.fileExists(paths.join(folderPath, cfg.descFileName))
      ensures m == MdCustomTemplate <==>
                !fs.fileExists(paths.join(folderPath, cfg.indexPageFileName)) &&
                fs.fileExists(paths.join(folderPath, cfg.descFileName)) &&
                fs.fileExists(paths.join(folderPath, cfg.templateFileName))
    {
      if fs.fileExists(paths.join(folderPath, cfg.indexPageFileName)) then Index
      else if !fs.fileExists(paths.join(folderPath, cfg.descFileName)) then DefaultIndex
      else if fs.fileExists(paths.join(folderPath, cfg.templateFileName)) then MdCustomTemplate
      else MdDefaultTemplate
    }

    /** ToDownload: a path with ".." is refused; then the folder must list
        at least one file; the download is the folder's hash, base name and
        files, enabled, created `now`, and its page is the rendered index
        page with that page's hash. */
    method ToDownload(folderPath: string, now: int) returns (r: Result<Download>)
      ensures HasDotDot(folderPath) ==> r == Err(Message("invalid folder path"))
      ensures !HasDotDot(folderPath) && fs.readDir(folderPath).Err? ==>
                r == Err(Wrapped("cannot get folder files", fs.readDir(folderPath).error))
      ensures !HasDotDot(folderPath) && fs.readDir(folderPath).Ok? ==>
                var entries := fs.readDir(folderPath).value;
                var d := Skeleton(folderPath, entries, now);
                var page := renderIndex(folderPath, d);
                if Kept(entries, skipFiles) == [] then r == Err(Message("folder have no files"))
                else if GetParseMode(folderPath) in {MdCustomTemplate, MdDefaultTemplate} then r == Err(Panic("not implemented"))
                else if page.Err? then r == Err(Wrapped("cannot parse index page", page.error))
                else r == Ok(d.(pageContent := page.value, pageHash := paths.hash(page.value)))
    {
      if HasDotDot(folderPath) {
        return Err(Message("invalid folder path"));
      }
      var files := ReadFiles(fs, folderPath, skipFiles, FileOf(folderPath));
      if files.Err? {
        return Err(Wrapped("cannot get folder files", files.error));
      }
      if |files.value| < 1 {
        return Err(Message("folder have no files"));
      }
      var download := Download(paths.hash(folderPath), paths.base(folderPath), "", "", true,
                               files.value, folderPath, now);
      assert download == Skeleton(folderPath, fs.readDir(folderPath).value, now);
      var mode := GetParseMode(folderPath);
      if mode == Index || mode == DefaultIndex {
        var page := renderIndex(folderPath, download);
        if page.Err? {
          return Err(Wrapped("cannot parse index page", page.error));
        }
        download := download.(pageContent := page.value, pageHash := paths.hash(page.value));
        return Ok(download);
      }
      // parseMarkdown begins with getFrontmatter, which panics.
      return Err(Panic("not implemented"));
    }
  }

  /** A download the adapter returns lists only regular, not skipped files
      of its folder, at most MaxFiles of them, each identified by the hash of
      its own path, and its page hash is the hash of its page. */
  lemma ToDownloadFiles(a: FsAdapter, folderPath: string, now: int, f: File)
    requires a.fs.readDir(folderPath).Ok?
    requires f in a.Skeleton(folderPath, a.fs.readDir(folderPath).value, now).files
    ensures f.name !in a.skipFiles
    ensures exists i :: 0 <= i < |a.fs.readDir(folderPath).value| &&
              !a.fs.readDir(folderPath).value[i].isDir && a.fs.readDir(folderPath).value[i].name == f.name
    ensures f.sourcePath == a.paths.join(folderPath, f.name) && f.id == a.paths.hash(f.sourcePath)
    ensures |a.Skeleton(folderPath, a.fs.readDir(folderPath).value, now).files| <= MaxFiles
  {
    var entries := a.fs.readDir(folderPath).value;
    var files := FolderFiles(entries, a.skipFiles, a.FileOf(folderPath));
    var j :| 0 <= j < |files| && files[j] == f;
    var name := Kept(entries, a.skipFiles)[j];
    assert name in Eligible(entries, a.skipFiles);
    EligibleMembers(entries, a.skipFiles, name);
  }

  /** A folder whose listing holds only directories and skipped names (an
      empty folder, or one with only its index page) is refused. */
  lemma NoFilesRefused(a: FsAdapter, folderPath: string)
    requires !HasDotDot(folderPath) && a.fs.readDir(folderPath).Ok?
    requires forall i :: 0 <= i < |a.fs.readDir(folderPath).value| ==>
               a.fs.readDir(folderPath).value[i].isDir || a.fs.readDir(folderPath).value[i].name in a.skipFiles
    ensures Kept(a.fs.readDir(folderPath).value, a.skipFiles) == []
  {
    EligibleEmpty(a.fs.readDir(folderPath).value, a.skipFiles);
  }
}
