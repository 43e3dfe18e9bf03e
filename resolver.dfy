/** The file and template resolvers of internal/adapter/fsadapter/resolver.go.
    The file resolver looks a file up by name in its list; the first lookup
    on a list of more than BuildIndexThreshold files builds a name index
    and answers from it, every other lookup scans the list. A lookup
    answers the position of the file in the list, which stands for the `*File`
    into it that Go returns. */
module Resolver {
  import opened Common
  import opened Entity
  import opened Render

  const BuildIndexThreshold: nat := 5

  /** The index buildIndex builds: each name to the last position holding it. */
  function LastIndex(files: seq<File>): (m: map<string, nat>)
    ensures forall n :: n in m ==> m[n] < |files|
  {
    if files == [] then map[]
    else LastIndex(files[..|files| - 1])[files[|files| - 1].name := |files| - 1]
  }

  /** A name is indexed exactly when some file has it, and then at the
      last position holding it. */
  lemma {:induction false} LastIndexSpec(files: seq<File>, n: string)
    ensures n in LastIndex(files) <==> exists j :: 0 <= j < |files| && files[j].name == n
    ensures n in LastIndex(files) ==>
              files[LastIndex(files)[n]].name == n &&
              forall j :: LastIndex(files)[n] < j < |files| ==> files[j].name != n
  {
    if files != [] {
      var init := files[..|files| - 1];
      LastIndexSpec(init, n);
      if files[|files| - 1].name != n {
        if exists j :: 0 <= j < |files| && files[j].name == n {
          var j :| 0 <= j < |files| && files[j].name == n;
          assert init[j].name == n;
        }
        if n in LastIndex(init) {
          var j :| 0 <= j < |init| && init[j].name == n;
          assert files[j].name == n;
          assert files[LastIndex(init)[n]] == init[LastIndex(init)[n]];
        }
      }
    }
  }

  /** The error of a lookup that finds nothing. */
  function NotFound(name: string): Error
  {
    Message("cannot find file: " + name)
  }

  /** Whether the lookup made on a resolver in this state builds the index. */
  predicate BuildsIndex(files: seq<File>, index: Option<map<string, nat>>)
  {
    index.None? && |files| > BuildIndexThreshold
  }

  /** What GetFile answers on a resolver in this state: from the new index
      when this call builds it, from a scan otherwise. */
  function Resolve(files: seq<File>, index: Option<map<string, nat>>, name: string): (r: Result<nat>)
    ensures r.Ok? ==> r.value < |files| && files[r.value].name == name
    ensures r.Err? <==> forall j :: 0 <= j < |files| ==> files[j].name != name
    ensures r.Err? ==> r.error == NotFound(name)
    ensures r.Ok? && BuildsIndex(files, index) ==> forall j :: r.value < j < |files| ==> files[j].name != name
    ensures r.Ok? && !BuildsIndex(files, index) ==> forall j :: 0 <= j < r.value ==> files[j].name != name
  {
    if BuildsIndex(files, index) then
      var m := LastIndex(files);
      LastIndexSpec(files, name);
      if name in m then Ok(m[name]) else Err(NotFound(name))
    else
      match FirstIndexOf(files, name)
      case Some(k) => Ok(k)
      case None => Err(NotFound(name))
  }

  /** The call that builds the index answers the last file of that name,
      every other call the first; with distinct names the two agree. */
  lemma ResolveDistinct(files: seq<File>, index: Option<map<string, nat>>, name: string)
    requires forall i, j :: 0 <= i < j < |files| ==> files[i].name != files[j].name
    ensures Resolve(files, index, name) == Resolve(files, None, name) == Resolve(files, Some(map[]), name)
  {
    var m := LastIndex(files);
    LastIndexSpec(files, name);
    match FirstIndexOf(files, name)
    case Some(k) =>
      assert name in m;
      assert m[name] == k;
    case None =>
  }

  /** With a repeated name the index answers differently from the scan: the
      call that builds the index finds a later file than every other call. */
  lemma ResolveDuplicate(files: seq<File>, i: nat, j: nat, m: map<string, nat>)
    requires i < j < |files| && files[i].name == files[j].name
    requires |files| > BuildIndexThreshold
    ensures Resolve(files, None, files[i].name).Ok? && Resolve(files, Some(m), files[i].name).Ok?
    ensures Resolve(files, Some(m), files[i].name).value <= i < j <= Resolve(files, None, files[i].name).value
  {
    var n := files[i].name;
    var last := LastIndex(files);
    LastIndexSpec(files, n);
    assert files[j].name == n;
    assert last[n] >= j;
  }

  class FileResolver {
    var files: seq<File>
    /** Built lazily by the first lookup on a long enough list. */
    var index: Option<map<string, nat>>

    /** newFileResolver: no index yet. */
    constructor(files: seq<File>)
      ensures this.files == files && index.None?
    {
      this.files := files;
      index := None;
    }

    /** buildIndex: every name to its last position. */
    method BuildIndex()
      modifies this
      ensures files == old(files) && index == Some(LastIndex(files))
    {
      var m: map<string, nat> := map[];
      for i := 0 to |files|
        invariant m == LastIndex(files[..i])
      {
        assert files[..i + 1][..i] == files[..i];
        m := m[files[i].name := i];
      }
      assert files[..|files|] == files;
      index := Some(m);
    }

    /** The scan of GetFile: the first file of that name. */
    method Scan(name: string) returns (r: Option<nat>)
      ensures r == FirstIndexOf(files, name)
    {
      for i := 0 to |files|
        invariant forall j :: 0 <= j < i ==> files[j].name != name
      {
        if files[i].name == name {
          return Some(i);
        }
      }
      return None;
    }

    /** GetFile: the file list is never changed; only the first lookup on a
        list of more than BuildIndexThreshold files sets the index. */
    method GetFile(name: string) returns (r: Result<nat>)
      modifies this
      ensures files == old(files)
      ensures index == if BuildsIndex(old(files), old(index)) then Some(LastIndex(files)) else old(index)
      ensures r == Resolve(files, old(index), name)
    {
      if index.None? && |files| > BuildIndexThreshold {
        BuildIndex();
        if name in index.value {
          return Ok(index.value[name]);
        }
        return Err(NotFound(name));
      }
      var k := Scan(name);
      if k.None? {
        return Err(NotFound(name));
      }
      return Ok(k.value);
    }

    /** GetFiles: the stored list. */
    function GetFiles(): seq<File>
      reads this
    {
      files
    }
  }

  /** The FILE and FILES templates the markdown parser renders with; the
      interface lets either be missing. */
  datatype TemplateResolver = TemplateResolver(fileTemplate: Option<Template>, filesTemplate: Option<Template>)

  /** newTemplateResolver: FILE is checked first, then FILES. */
  function NewTemplateResolver(lookup: TemplateSet): (r: Result<TemplateResolver>)
    ensures lookup(FileTemplateName).None? ==> r == Err(Message("cannot find template FILE"))
    ensures lookup(FileTemplateName).Some? && lookup(FilesTemplateName).None? ==>
              r == Err(Message("cannot find template FILES"))
    ensures r.Ok? <==> lookup(FileTemplateName).Some? && lookup(FilesTemplateName).Some?
    ensures r.Ok? ==> r.value.fileTemplate == lookup(FileTemplateName) && r.value.filesTemplate == lookup(FilesTemplateName)
  {
    var resolver := TemplateResolver(lookup(FileTemplateName), lookup(FilesTemplateName));
    if resolver.fileTemplate.None? then Err(Message("cannot find template FILE"))
    else if resolver.filesTemplate.None? then Err(Message("cannot find template FILES"))
    else Ok(resolver)
  }
}
