/** The file-directive renderer of
    internal/adapter/nadapter/mdadapter/renderer.go. A `[[FILE]]`
    directive is rendered with the FILE template over the file it names,
    whose description the directive overwrites in place. A `[[FILES]]`
    directive is meant for the FILES template over the resolver's files,
    but the program's template lookup always takes FILE. */
module NRenderer {
  import opened Common
  import opened Entity
  import opened Render
  import opened Resolver

  /** The type name Go's %T prints for the nil directive of a failed type
      assertion. */
  const UnexpectedDirective: Error := Message("unexpected node *mdadapter.FileDirective, expected *Filedirective")

  /** renderTemplate as written: whatever name it is given, it looks up the
      FILE template; only the error message names the template asked for. */
  function RenderTemplateAsWritten(templates: TemplateSet, name: string, data: TemplateData): (r: Result<string>)
    ensures templates(FileTemplateName).None? ==> r == Err(Message("template with name " + name + " must be defined"))
    ensures templates(FileTemplateName).Some? ==>
              r == match templates(FileTemplateName).value(data)
                   case Ok(s) => Ok(s)
                   case Err(e) => Err(Wrapped("cannot execute template", e))
  {
    match templates(FileTemplateName)
    case None => Err(Message("template with name " + name + " must be defined"))
    case Some(t) =>
      match t(data)
      case Ok(s) => Ok(s)
      case Err(e) => Err(Wrapped("cannot execute template", e))
  }

  /** renderTemplate as evidently intended: the template of that name. */
  function RenderTemplate(templates: TemplateSet, name: string, data: TemplateData): (r: Result<string>)
    ensures templates(name).None? ==> r == Err(Message("template with name " + name + " must be defined"))
    ensures templates(name).Some? ==>
              r == match templates(name).value(data)
                   case Ok(s) => Ok(s)
                   case Err(e) => Err(Wrapped("cannot execute template", e))
  {
    match templates(name)
    case None => Err(Message("template with name " + name + " must be defined"))
    case Some(t) =>
      match t(data)
      case Ok(s) => Ok(s)
      case Err(e) => Err(Wrapped("cannot execute template", e))
  }

  /** The as-written lookup never depends on the name on success, so a
      FILES directive is rendered by the FILE template: with FILE and FILES
      defined apart, [[FILES]] gives what FILE gives. */
  lemma RenderTemplateAsWrittenIgnoresName(templates: TemplateSet, name: string, data: TemplateData)
    ensures RenderTemplateAsWritten(templates, name, data).Ok? ==>
              RenderTemplateAsWritten(templates, name, data) == RenderTemplate(templates, FileTemplateName, data)
    ensures RenderTemplate(templates, FileTemplateName, data) == RenderTemplateAsWritten(templates, FileTemplateName, data)
  {
  }

  /** Concretely: a FILE template printing "one" and a FILES template
      printing "all". */
  lemma RenderTemplateAsWrittenMisrenders(data: TemplateData)
    ensures var templates: TemplateSet := n =>
        if n == FileTemplateName then Some((d: TemplateData) => Ok("one"))
        else if n == FilesTemplateName then Some((d: TemplateData) => Ok("all"))
        else None;
      RenderTemplateAsWritten(templates, FilesTemplateName, data) == Ok("one") &&
      RenderTemplate(templates, FilesTemplateName, data) == Ok("all")
  {
  }

  class FileDirectiveRenderer {
    const resolver: FileResolver
    const templates: TemplateSet

    constructor(resolver: FileResolver, templates: TemplateSet)
      ensures this.resolver == resolver && this.templates == templates
    {
      this.resolver := resolver;
      this.templates := templates;
    }

    /** renderFileDirective as written: the template lookup ignores the
        name, so a `[[FILES]]` directive is rendered by the FILE template
        over the list of files, and a `[[FILE]]` one as intended. */
    method RenderFileDirective(node: Node, entering: bool) returns (step: RenderStep)
      modifies resolver
      ensures !entering ==> step == RenderStep(WalkContinue, None, "") && unchanged(resolver)
      ensures entering && !node.FileDirective? ==> step == RenderStep(WalkStop, Some(UnexpectedDirective), "") && unchanged(resolver)
      ensures entering && node.FileDirective? && node.allFiles ==>
                unchanged(resolver) &&
                step == match RenderTemplateAsWritten(templates, FilesTemplateName, FileList(resolver.files))
                        case Ok(s) => RenderStep(WalkContinue, None, s)
                        case Err(e) => RenderStep(WalkStop, Some(e), "")
      ensures entering && node.FileDirective? && node.allFiles && step.error.None? ==>
                templates(FileTemplateName).Some? && templates(FileTemplateName).value(FileList(resolver.files)) == Ok(step.output)
      ensures entering && node.FileDirective? && !node.allFiles ==>
                var found := Resolve(old(resolver.files), old(resolver.index), node.filename);
                (found.Err? ==>
                   resolver.files == old(resolver.files) &&
                   step == RenderStep(WalkStop, Some(Wrapped("cannot get file " + node.filename, found.error)), "")) &&
                (found.Ok? ==>
                   var k := found.value;
                   var file := if node.description != "" then old(resolver.files)[k].(description := node.description)
                               else old(resolver.files)[k];
                   resolver.files == old(resolver.files)[k := file] &&
                   step == match RenderTemplate(templates, FileTemplateName, OneFile(file))
                           case Ok(s) => RenderStep(WalkContinue, None, s)
                           case Err(e) => RenderStep(WalkStop, Some(e), ""))
      ensures step.output != "" ==> step.status == WalkContinue && step.error.None?
    {
      step := RenderWith(node, entering, RenderTemplateAsWritten);
    }

    /** renderFileDirective as evidently intended: a `[[FILES]]` directive
        is rendered by the FILES template. */
    method RenderFileDirectiveCorrected(node: Node, entering: bool) returns (step: RenderStep)
      modifies resolver
      ensures !entering ==> step == RenderStep(WalkContinue, None, "") && unchanged(resolver)
      ensures entering && !node.FileDirective? ==> step == RenderStep(WalkStop, Some(UnexpectedDirective), "") && unchanged(resolver)
      ensures entering && node.FileDirective? && node.allFiles ==>
                unchanged(resolver) &&
                step == match RenderTemplate(templates, FilesTemplateName, FileList(resolver.files))
                        case Ok(s) => RenderStep(WalkContinue, None, s)
                        case Err(e) => RenderStep(WalkStop, Some(e), "")
      ensures entering && node.FileDirective? && !node.allFiles ==>
                var found := Resolve(old(resolver.files), old(resolver.index), node.filename);
                (found.Err? ==>
                   resolver.files == old(resolver.files) &&
                   step == RenderStep(WalkStop, Some(Wrapped("cannot get file " + node.filename, found.error)), "")) &&
                (found.Ok? ==>
                   var k := found.value;
                   var file := if node.description != "" then old(resolver.files)[k].(description := node.description)
                               else old(resolver.files)[k];
                   resolver.files == old(resolver.files)[k := file] &&
                   step == match RenderTemplate(templates, FileTemplateName, OneFile(file))
                           case Ok(s) => RenderStep(WalkContinue, None, s)
                           case Err(e) => RenderStep(WalkStop, Some(e), ""))
      ensures step.output != "" ==> step.status == WalkContinue && step.error.None?
    {
      step := RenderWith(node, entering, RenderTemplate);
    }

    /** The walk step both renderers share, over a template lookup `render`:
        leaving a node does nothing; an unknown node or an unknown file
        stops the walk with nothing written; a directive description is
        stored on the resolver's file before the template runs, so it stays
        even when the template fails; output is written only after a
        successful render. */
    method RenderWith(node: Node, entering: bool, render: (TemplateSet, string, TemplateData) -> Result<string>)
      returns (step: RenderStep)
      modifies resolver
      ensures !entering ==> step == RenderStep(WalkContinue, None, "") && unchanged(resolver)
      ensures entering && !node.FileDirective? ==> step == RenderStep(WalkStop, Some(UnexpectedDirective), "") && unchanged(resolver)
      ensures entering && node.FileDirective? && node.allFiles ==>
                unchanged(resolver) &&
                step == match render(templates, FilesTemplateName, FileList(resolver.files))
                        case Ok(s) => RenderStep(WalkContinue, None, s)
                        case Err(e) => RenderStep(WalkStop, Some(e), "")
      ensures entering && node.FileDirective? && !node.allFiles ==>
                var found := Resolve(old(resolver.files), old(resolver.index), node.filename);
                (found.Err? ==>
                   resolver.files == old(resolver.files) &&
                   step == RenderStep(WalkStop, Some(Wrapped("cannot get file " + node.filename, found.error)), "")) &&
                (found.Ok? ==>
                   var k := found.value;
                   var file := if node.description != "" then old(resolver.files)[k].(description := node.description)
                               else old(resolver.files)[k];
                   resolver.files == old(resolver.files)[k := file] &&
                   step == match render(templates, FileTemplateName, OneFile(file))
                           case Ok(s) => RenderStep(WalkContinue, None, s)
                           case Err(e) => RenderStep(WalkStop, Some(e), ""))
      ensures step.output != "" ==> step.status == WalkContinue && step.error.None?
    {
      if !entering {
        return RenderStep(WalkContinue, None, "");
      }
      if !node.FileDirective? {
        return RenderStep(WalkStop, Some(UnexpectedDirective), "");
      }
      if node.allFiles {
        var data := render(templates, FilesTemplateName, FileList(resolver.GetFiles()));
        if data.Err? {
          return RenderStep(WalkStop, Some(data.error), "");
        }
        return RenderStep(WalkContinue, None, data.value);
      }
      var pos := resolver.GetFile(node.filename);
      if pos.Err? {
        return RenderStep(WalkStop, Some(Wrapped("cannot get file " + node.filename, pos.error)), "");
      }
      if node.description != "" {
        resolver.files := resolver.files[pos.value := resolver.files[pos.value].(description := node.description)];
      }
      var data := render(templates, FileTemplateName, OneFile(resolver.files[pos.value]));
      if data.Err? {
        return RenderStep(WalkStop, Some(data.error), "");
      }
      return RenderStep(WalkContinue, None, data.value);
    }
  }
}
