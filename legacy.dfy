/** The earlier folder-to-download adapter of
    internal/adapter/fsadapter/fsadapter.go. It lists a folder the same way
    as the newer one, but takes the title, the enabled flag and the file
    descriptions from the folder's markdown description and its
    frontmatter. Its download record is the older one, with a description
    and an update time. The markdown pipeline is three function
    parameters. */
module LegacyAdapter {
  import opened Common
  import opened Entity
  import opened Folder

  /** The frontmatter of a description file. */
  datatype FolderDesc = FolderDesc(title: string, enabled: bool, files: map<string, string>)

  /** The download record this adapter builds. */
  datatype LegacyDownload = LegacyDownload(
    id: string,
    title: string,
    description: string,
    enabled: bool,
    sourcePath: string,
    createdAt: int,
    updatedAt: int,
    files: seq<File>)

  /** Reading a file, converting markdown to HTML, and decoding the
      frontmatter; None is a failure. */
  datatype Markdown = Markdown(
    readFile: string -> Option<string>,
    convert: string -> Option<string>,
    frontmatter: string -> Option<FolderDesc>)

  /** The file description a frontmatter entry gives, if any. */
  function Described(f: File, descs: map<string, string>): File
  {
    if f.name in descs then f.(description := descs[f.name]) else f
  }

  class FsAdapter {
    const fs: FileSystem
    const paths: Paths
    const md: Markdown
    const descFileName: string
    const skipFiles: set<string>

    /** NewFSAdapter: the skip set is the description file and every
        configured name. */
    constructor(fs: FileSystem, paths: Paths, md: Markdown, descFileName: string, skip: seq<string>)
      ensures this.fs == fs && this.paths == paths && this.md == md && this.descFileName == descFileName
      ensures skipFiles == {descFileName} + set i | 0 <= i < |skip| :: skip[i]
    {
      var s := SkipSet({descFileName}, skip);
      this.fs := fs;
      this.paths := paths;
      this.md := md;
      this.descFileName := descFileName;
      skipFiles := s;
    }

    /** The file readFiles makes of entry `name`: no URL, size 0 when Stat
        fails, no MIME type when the probe fails. */
    function MakeFile(folderPath: string, name: string): File
    {
      var sourcePath := paths.join(folderPath, name);
      File(paths.hash(sourcePath), name, "", sourcePath, "",
           if fs.size(sourcePath).Some? then fs.size(sourcePath).value else 0,
           if fs.mimeType(sourcePath).Ok? then fs.mimeType(sourcePath).value else "")
    }

    /** The file readFiles makes of an entry of a folder. */
    function FileOf(folderPath: string): string -> File
    {
      name => MakeFile(folderPath, name)
    }

    /** getFolderDesc: without a description file, the folder's base name,
        enabled, with no description and no file descriptions; otherwise
        the HTML of the description and its frontmatter, each failure with
        its own message. */
    function GetFolderDesc(folderPath: string): (r: Result<(string, FolderDesc)>)
      ensures !fs.fileExists(paths.join(folderPath, descFileName)) ==>
                r == Ok(("", FolderDesc(paths.base(folderPath), true, map[])))
      ensures r.Err? ==>
                fs.fileExists(paths.join(folderPath, descFileName)) &&
                r.error in {Message("cannot read description file"),
                            Message("cannot convert description file to markdown"),
                            Message("cannot read frontmatter from description file")}
      ensures r.Ok? && fs.fileExists(paths.join(folderPath, descFileName)) ==>
                var data := md.readFile(paths.join(folderPath, descFileName));
                data.Some? && md.convert(data.value) == Some(r.value.0) &&
                md.frontmatter(data.value) == Some(r.value.1)
    {
      var path := paths.join(folderPath, descFileName);
      if !fs.fileExists(path) then Ok(("", FolderDesc(paths.base(folderPath), true, map[])))
      else match md.readFile(path)
        case None => Err(Message("cannot read description file"))
        case Some(data) =>
          match md.convert(data)
          case None => Err(Message("cannot convert description file to markdown"))
          case Some(html) =>
            match md.frontmatter(data)
            case None => Err(Message("cannot read frontmatter from description file"))
            case Some(fd) => Ok((html, fd))
    }

    /** ToDownload: a path with ".." is refused, then a folder without files;
        a failed description is wrapped; otherwise the download takes its
        title, flag and description from the folder description, and every
        file named in the frontmatter takes the description given there. */
    method ToDownload(folderPath: string, now: int) returns (r: Result<LegacyDownload>)
      ensures HasDotDot(folderPath) ==> r == Err(Message("invalid folder path"))
      ensures !HasDotDot(folderPath) && fs.readDir(folderPath).Err? ==>
                r == Err(Wrapped("cannot get folder files", fs.readDir(folderPath).error))
      ensures !HasDotDot(folderPath) && fs.readDir(folderPath).Ok? ==>
                var files := FolderFiles(fs.readDir(folderPath).value, skipFiles, FileOf(folderPath));
                var desc := GetFolderDesc(folderPath);
                if files == [] then r == Err(Message("folder have no files"))
                else if desc.Err? then r == Err(Wrapped("cannot get folder description", desc.error))
                else
                  r.Ok? &&
                  var d, fd := r.value, desc.value.1;
                  d.id == paths.hash(folderPath) && d.title == fd.title && d.description == desc.value.0 &&
                  d.enabled == fd.enabled && d.sourcePath == folderPath &&
                  d.createdAt == now && d.updatedAt == now &&
                  |d.files| == |files| && forall i :: 0 <= i < |files| ==> d.files[i] == Described(files[i], fd.files)
    {
      if HasDotDot(folderPath) {
        return Err(Message("invalid folder path"));
      }
      var files := ReadFiles(fs, folderPath, skipFiles, FileOf(folderPath));
      if files.Err? {
        return Err(Wrapped("cannot get folder files", files.error));
      }
      if |files.value| < 1 {
        return Err(Message("folder have no files"));
      }
      var desc := GetFolderDesc(folderPath);
      if desc.Err? {
        return Err(Wrapped("cannot get folder description", desc.error));
      }
      var (descr, fd) := desc.value;
      var described := files.value;
      if |fd.files| > 0 {
        described := ApplyDescriptions(files.value, fd.files);
      }
      return Ok(LegacyDownload(paths.hash(folderPath), fd.title, descr, fd.enabled, folderPath, now, now, described));
    }
  }

  /** A folder without a description file becomes an enabled download titled
      by its base name, with no description, its files as listed. */
  lemma UndescribedFolder(a: FsAdapter, folderPath: string, d: LegacyDownload, now: int)
    requires !a.fs.fileExists(a.paths.join(folderPath, a.descFileName))
    requires a.fs.readDir(folderPath).Ok?
    requires var files := FolderFiles(a.fs.readDir(folderPath).value, a.skipFiles, a.FileOf(folderPath));
      files != [] && d.title == a.GetFolderDesc(folderPath).value.1.title &&
      d.enabled == a.GetFolderDesc(folderPath).value.1.enabled &&
      d.description == a.GetFolderDesc(folderPath).value.0 &&
      |d.files| == |files| &&
      forall i :: 0 <= i < |files| ==> d.files[i] == Described(files[i], a.GetFolderDesc(folderPath).value.1.files)
    ensures d.title == a.paths.base(folderPath) && d.enabled && d.description == ""
    ensures d.files == FolderFiles(a.fs.readDir(folderPath).value, a.skipFiles, a.FileOf(folderPath))
  {
  }

  /** A description changes only the description of a file, never its
      identity, its path or its size. */
  lemma DescribedKeepsFile(f: File, descs: map<string, string>)
    ensures var g := Described(f, descs);
      g.id == f.id && g.name == f.name && g.sourcePath == f.sourcePath && g.size == f.size &&
      (g.description != f.description ==> f.name in descs && g.description == descs[f.name])
  {
  }
}
