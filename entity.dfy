/** The records of internal/entity: a download (one shared folder), its files,
    the counters dumped per download, and the summary row returned by an
    index run. Go's `time.Time` is an opaque instant, modelled as an `int`. */
module Entity {
  import opened Common

  datatype File = File(
    id: string,           // stable hash of the file's source path
    name: string,
    description: string,  // shown instead of the name when not empty
    sourcePath: string,
    url: string,
    size: int,
    mimeType: string)

  datatype Download = Download(
    id: string,           // stable hash of the folder path
    title: string,
    pageContent: string,  // the rendered page
    pageHash: string,
    enabled: bool,
    files: seq<File>,
    sourcePath: string,
    createdAt: int)

  datatype FileCounter = FileCounter(id: string, name: string, sourcePath: string, counter: int)

  datatype DownloadCounters = DownloadCounters(id: string, sourcePath: string, files: seq<FileCounter>)

  /** One row of the summary an index run returns: a download of the active
      generation, its folder and how many files it lists. */
  datatype ShareInfo = ShareInfo(id: string, sourcePath: string, fileCount: nat)

  /** The ids of all files of a batch of downloads. */
  function FileIds(ds: seq<Download>): (ids: set<string>)
    ensures forall d, f :: d in ds && f in d.files ==> f.id in ids
    ensures forall id :: id in ids ==> exists d, f :: d in ds && f in d.files && f.id == id
  {
    if ds == [] then {}
    else
      var init, last := ds[..|ds| - 1], ds[|ds| - 1];
      assert forall d :: d in ds ==> d in init || d == last;
      FileIds(init) + (set f | f in last.files :: f.id)
  }

  /** The position of the first file called `name`, if any. */
  function FirstIndexOf(files: seq<File>, name: string): (r: Option<nat>)
    ensures r.Some? ==> r.value < |files| && files[r.value].name == name &&
                        forall j :: 0 <= j < r.value ==> files[j].name != name
    ensures r.None? ==> forall j :: 0 <= j < |files| ==> files[j].name != name
  {
    if files == [] then None
    else if files[0].name == name then Some(0)
    else match FirstIndexOf(files[1..], name)
      case Some(k) => Some(k + 1)
      case None => None
  }

  /** The frontmatter overlay, done in place on the file list: every file
      whose name is a key of `descs` takes that description; every other file
      is left as it is. */
  method ApplyDescriptions(files: seq<File>, descs: map<string, string>) returns (r: seq<File>)
    ensures |r| == |files|
    ensures forall i :: 0 <= i < |files| && files[i].name in descs ==>
      r[i] == files[i].(description := descs[files[i].name])
    ensures forall i :: 0 <= i < |files| && files[i].name !in descs ==> r[i] == files[i]
  {
    r := files;
    for i := 0 to |files|
      invariant |r| == |files|
      invariant forall j :: 0 <= j < i && files[j].name in descs ==>
        r[j] == files[j].(description := descs[files[j].name])
      invariant forall j :: 0 <= j < |files| && (j >= i || files[j].name !in descs) ==> r[j] == files[j]
    {
      if files[i].name in descs {
        r := r[i := r[i].(description := descs[files[i].name])];
      }
    }
  }
}
