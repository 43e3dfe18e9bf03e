/** What the markdown and template adapters share: templates as functions
    from the value they are executed with to their output, a template set
    as a lookup by name, the markdown nodes the wiki-link extension
    produces, and the walk status a node renderer answers with. */
module Render {
  import opened Common
  import opened Entity

  /** The value a template is executed with. */
  datatype TemplateData =
    | OneFile(file: File)          // the FILE template
    | FileList(files: seq<File>)   // the FILES template
    | Page(download: Download)     // a page template

  /** A parsed template: executing it renders its data or fails. */
  type Template = TemplateData -> Result<string>

  /** template.Lookup: the template defined under a name, if any. */
  type TemplateSet = string -> Option<Template>

  const FileTemplateName: string := "FILE"
  const FilesTemplateName: string := "FILES"

  /** The markdown nodes the renderers dispatch on. */
  datatype Node =
    | FileNode(filename: string, html: string, error: Option<Error>)   // [[name]] or [[name|desc]], prerendered
    | FilesNode(html: string, error: Option<Error>)                    // [[FILES]], prerendered
    | FileDirective(filename: string, description: string, allFiles: bool)
    | OtherNode                                                        // any node of another kind

  /** ast.WalkStatus. */
  datatype WalkStatus = WalkContinue | WalkStop

  /** parser.State of a block parser. */
  datatype BlockState = NoChildren | Close

  /** What one call of a node renderer does: its answer, its error, and the
      text it writes to the output buffer. */
  datatype RenderStep = RenderStep(status: WalkStatus, error: Option<Error>, output: string)
}
