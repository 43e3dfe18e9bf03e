/** The page-template adapter of internal/adapter/tpladapter/adapter.go. A
    page is the root template executed over a download; while it runs, the
    `file` and `files` helpers render one file of the current download with
    the FILE template, or all of its files with the FILES template. The
    helpers are the methods below; the root template's own execution is
    the function `root`. */
module TplAdapter {
  import opened Common
  import opened Entity
  import opened Render

  /** lookupFile on the current download: none without a download or
      without files, otherwise the first file of that name. */
  function Located(d: Option<Download>, name: string): (r: Option<nat>)
    ensures d.None? ==> r.None?
    ensures d.Some? ==> r == FirstIndexOf(d.value.files, name)
  {
    if d.None? || |d.value.files| < 1 then None else FirstIndexOf(d.value.files, name)
  }

  /** The download after the `file` helper sets a file's description. */
  function WithDescription(d: Download, k: nat, desc: string): (e: Download)
    requires k < |d.files|
    ensures e.files == d.files[k := d.files[k].(description := desc)]
    ensures e == d.(files := e.files)
  {
    d.(files := d.files[k := d.files[k].(description := desc)])
  }

  /** Setting a description moves no file: every later lookup finds what it
      found before, and the described file keeps its new description. */
  lemma WithDescriptionKeepsLookups(d: Download, k: nat, desc: string, name: string)
    requires k < |d.files|
    ensures Located(Some(WithDescription(d, k, desc)), name) == Located(Some(d), name)
    ensures WithDescription(d, k, desc).files[k].description == desc
  {
    var e := WithDescription(d, k, desc);
    assert forall j :: 0 <= j < |d.files| ==> e.files[j].name == d.files[j].name;
    FirstIndexOfNames(d.files, e.files, name);
  }

  /** Lists naming their files alike have the same first match. */
  lemma {:induction false} FirstIndexOfNames(a: seq<File>, b: seq<File>, name: string)
    requires |a| == |b| && forall j :: 0 <= j < |a| ==> a[j].name == b[j].name
    ensures FirstIndexOf(a, name) == FirstIndexOf(b, name)
  {
    if a != [] {
      FirstIndexOfNames(a[1..], b[1..], name);
    }
  }

  class TplAdapter {
    /** Executing the parsed page template. */
    const root: Template
    /** The templates defined alongside it. */
    const lookup: TemplateSet
    /** The download of the page being rendered. */
    var download: Option<Download>

    constructor(root: Template, lookup: TemplateSet)
      ensures this.root == root && this.lookup == lookup && download.None?
    {
      this.root := root;
      this.lookup := lookup;
      download := None;
    }

    /** Parse: the download is stored before the template runs, so the
        helpers see this download. */
    method Parse(d: Download) returns (r: Result<string>)
      modifies this
      ensures download == Some(d)
      ensures r == match root(Page(d))
                   case Ok(s) => Ok(s)
                   case Err(e) => Err(Wrapped("cannot execute template", e))
    {
      download := Some(d);
      var page := root(Page(d));
      if page.Err? {
        return Err(Wrapped("cannot execute template", page.error));
      }
      return Ok(page.value);
    }

    /** lookupFile: the search loop. */
    method LookupFile(name: string) returns (r: Option<nat>)
      ensures r == Located(download, name)
      ensures r.Some? ==> r.value < |download.value.files| && download.value.files[r.value].name == name
    {
      if download.None? || |download.value.files| < 1 {
        return None;
      }
      var files := download.value.files;
      for i := 0 to |files|
        invariant forall j :: 0 <= j < i ==> files[j].name != name
      {
        if files[i].name == name {
          return Some(i);
        }
      }
      return None;
    }

    /** renderFile: FILE must be defined, then the file must exist; its
        description becomes the first extra argument, or its own name, on
        the download itself, before the template runs. */
    method RenderFile(name: string, args: seq<string>) returns (r: Result<string>)
      modifies this
      ensures lookup(FileTemplateName).None? ==>
                r == Err(Message("template FILE must be defined")) && download == old(download)
      ensures lookup(FileTemplateName).Some? && Located(old(download), name).None? ==>
                r == Err(Message("cannot find file: " + name)) && download == old(download)
      ensures lookup(FileTemplateName).Some? && Located(old(download), name).Some? ==>
                var k := Located(old(download), name).value;
                var d := WithDescription(old(download).value, k, if |args| > 0 then args[0] else name);
                download == Some(d) &&
                r == match lookup(FileTemplateName).value(OneFile(d.files[k]))
                     case Ok(s) => Ok(s)
                     case Err(e) => Err(Wrapped("cannot execute template FILE", e))
    {
      var tpl := lookup(FileTemplateName);
      if tpl.None? {
        return Err(Message("template FILE must be defined"));
      }
      var k := LookupFile(name);
      if k.None? {
        return Err(Message("cannot find file: " + name));
      }
      var desc := if |args| > 0 then args[0] else name;
      download := Some(WithDescription(download.value, k.value, desc));
      var html := tpl.value(OneFile(download.value.files[k.value]));
      if html.Err? {
        return Err(Wrapped("cannot execute template FILE", html.error));
      }
      return Ok(html.value);
    }

    /** renderFiles: FILES must be defined; without a download the Go code
        dereferences nil and panics; otherwise the current download's files
        are rendered. The error names the FILE template, as written. */
    function RenderFiles(): (r: Result<string>)
      reads this
      ensures lookup(FilesTemplateName).None? ==> r == Err(Message("template FILES must be defined"))
      ensures lookup(FilesTemplateName).Some? && download.None? ==> r.Err? && r.error.Panic?
      ensures r.Ok? ==> download.Some? && lookup(FilesTemplateName).Some? &&
                        lookup(FilesTemplateName).value(FileList(download.value.files)) == r
      ensures lookup(FilesTemplateName).Some? && download.Some? &&
              lookup(FilesTemplateName).value(FileList(download.value.files)).Err? ==>
                r == Err(Wrapped("cannot execute template FILE",
                                 lookup(FilesTemplateName).value(FileList(download.value.files)).error))
    {
      match lookup(FilesTemplateName)
      case None => Err(Message("template FILES must be defined"))
      case Some(tpl) =>
        if download.None? then Err(Panic("nil pointer dereference"))
        else match tpl(FileList(download.value.files))
          case Ok(s) => Ok(s)
          case Err(e) => Err(Wrapped("cannot execute template FILE", e))
    }
  }
}
