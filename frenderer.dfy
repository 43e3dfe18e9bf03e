/** The node renderers of internal/adapter/fsadapter/mdadapter/renderer.go:
    prerendered file and files nodes write their HTML, a file node when the
    walk enters it, a files node when the walk leaves it; a node carrying
    an error stops the walk. */
module FRenderer {
  import opened Common
  import opened Render

  /** The type names Go's %T prints for the nil node of a failed type
      assertion. */
  const UnexpectedFileNode: Error := Message("unexpected node *mdadapter.FileNode, expected *Filedirective")
  const UnexpectedFilesNode: Error := Message("unexpected node *mdadapter.FilesNode, expected *Filedirective")

  /** FileNodeRenderer.renderFileDirective. */
  function RenderFileNode(n: Node, entering: bool): (step: RenderStep)
    ensures step.output != "" ==> entering && n.FileNode? && n.error.None? && step.output == n.html
    ensures step.status == WalkContinue <==> !entering || (n.FileNode? && n.error.None?)
    ensures step.status == WalkContinue <==> step.error.None?
    ensures entering && n.FileNode? && n.error.Some? ==> step.error == Some(Wrapped("cannot render file template", n.error.value))
    ensures entering && !n.FileNode? ==> step.error == Some(UnexpectedFileNode)
  {
    if !entering then RenderStep(WalkContinue, None, "")
    else if !n.FileNode? then RenderStep(WalkStop, Some(UnexpectedFileNode), "")
    else if n.error.Some? then RenderStep(WalkStop, Some(Wrapped("cannot render file template", n.error.value)), "")
    else RenderStep(WalkContinue, None, n.html)
  }

  /** FilesRenderer.renderFiles. */
  function RenderFilesNode(n: Node, entering: bool): (step: RenderStep)
    ensures step.output != "" ==> !entering && n.FilesNode? && n.error.None? && step.output == n.html
    ensures step.status == WalkContinue <==> entering || (n.FilesNode? && n.error.None?)
    ensures step.status == WalkContinue <==> step.error.None?
    ensures !entering && n.FilesNode? && n.error.Some? ==> step.error == Some(Wrapped("cannot render files template", n.error.value))
    ensures !entering && !n.FilesNode? ==> step.error == Some(UnexpectedFilesNode)
  {
    if entering then RenderStep(WalkContinue, None, "")
    else if !n.FilesNode? then RenderStep(WalkStop, Some(UnexpectedFilesNode), "")
    else if n.error.Some? then RenderStep(WalkStop, Some(Wrapped("cannot render files template", n.error.value)), "")
    else RenderStep(WalkContinue, None, n.html)
  }

  /** The walk calls a renderer on entering and then on leaving a node,
      and stops at the first WalkStop; this is what the output buffer
      receives and the error the walk ends with. */
  function Visit(render: (Node, bool) -> RenderStep, n: Node): (string, Option<Error>)
  {
    var enter := render(n, true);
    if enter.status == WalkStop then (enter.output, enter.error)
    else
      var leave := render(n, false);
      (enter.output + leave.output, leave.error)
  }

  /** Over a whole visit, a file node without error writes its HTML exactly
      once and one with an error writes nothing and ends the walk with it;
      the same holds for a files node. */
  lemma VisitWritesOnce(n: Node)
    ensures n.FileNode? && n.error.None? ==> Visit(RenderFileNode, n) == (n.html, None)
    ensures n.FileNode? && n.error.Some? ==>
              Visit(RenderFileNode, n) == ("", Some(Wrapped("cannot render file template", n.error.value)))
    ensures n.FilesNode? && n.error.None? ==> Visit(RenderFilesNode, n) == (n.html, None)
    ensures n.FilesNode? && n.error.Some? ==>
              Visit(RenderFilesNode, n) == ("", Some(Wrapped("cannot render files template", n.error.value)))
  {
    if n.FileNode? || n.FilesNode? {
      assert "" + n.html == n.html && n.html + "" == n.html;
      assert "" + "" == "";
    }
  }
}
