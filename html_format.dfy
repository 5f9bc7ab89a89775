/**
 * HtmlFormat: a Format that decorates another Format. It keeps the wrapped
 * format's directives, reports the HTML file extension, and takes the wrapped
 * format's renderer factories with the Document and Code entries replaced by
 * its own.
 */
module HtmlFormat {
  import opened Nodes

  /** The shared template renderer, an external collaborator known only by identity. */
  datatype TemplateRenderer = TemplateRenderer(id: nat)

  /** A renderer factory: one of the two closures HtmlFormat installs, each
      binding what its renderer needs, or one supplied by the wrapped format. */
  datatype NodeRendererFactory =
    | DocumentRendererFactory(templateRenderer: TemplateRenderer, subFolder: string)
    | CodeRendererFactory(templateRenderer: TemplateRenderer, globalTemplatesPath: string)
    | InheritedFactory(id: nat)

  /** A renderer bound to one node. */
  datatype NodeRenderer =
    | DocumentNodeRenderer(node: Node, templateRenderer: TemplateRenderer, subFolder: string)
    | CodeNodeRenderer(node: Node, templateRenderer: TemplateRenderer, globalTemplatesPath: string)
    | InheritedRenderer(factory: nat, node: Node)

  /** Invoking a factory on a node yields a renderer bound to that node and to
      everything the factory captured. */
  function CreateRenderer(factory: NodeRendererFactory, node: Node): (r: NodeRenderer)
    ensures r.node == node
    ensures factory.DocumentRendererFactory? ==>
      r.DocumentNodeRenderer? && r.templateRenderer == factory.templateRenderer && r.subFolder == factory.subFolder
    ensures factory.CodeRendererFactory? ==>
      r.CodeNodeRenderer? && r.templateRenderer == factory.templateRenderer
      && r.globalTemplatesPath == factory.globalTemplatesPath
  {
    match factory
    case DocumentRendererFactory(t, sub) => DocumentNodeRenderer(node, t, sub)
    case CodeRendererFactory(t, path) => CodeNodeRenderer(node, t, path)
    case InheritedFactory(id) => InheritedRenderer(id, node)
  }

  /** A format: either one this model does not look inside (its extension,
      directive map and factory map given outright), or an HtmlFormat built
      from its four constructor arguments. */
  datatype Format<D> =
    | OpaqueFormat(fileExtension: string, directives: map<string, D>,
                   factories: map<NodeKind, NodeRendererFactory>)
    | HtmlFormat(templateRenderer: TemplateRenderer, format: Format<D>,
                 globalTemplatesPath: string, subFolder: string)

  /** Format::HTML. */
  const HTML: string := "html"

  function GetFileExtension<D>(f: Format<D>): (r: string)
    ensures f.HtmlFormat? ==> r == HTML
  {
    match f
    case OpaqueFormat(ext, _, _) => ext
    case HtmlFormat(_, _, _, _) => HTML
  }

  /** The directives: however deeply HtmlFormats are stacked, those of the
      innermost format. */
  function GetDirectives<D>(f: Format<D>): (r: map<string, D>)
    ensures r == Innermost(f).directives
  {
    match f
    case OpaqueFormat(_, directives, _) => directives
    case HtmlFormat(_, parent, _, _) => GetDirectives(parent)
  }

  /** The renderer factories. An HtmlFormat takes the wrapped format's map and
      sets its own Document and Code entries, so through any depth of
      decorators the kinds are the innermost format's plus Document and Code,
      and every other kind keeps the innermost format's factory. */
  function GetNodeRendererFactories<D>(f: Format<D>): (r: map<NodeKind, NodeRendererFactory>)
    ensures f.OpaqueFormat? ==> r == f.factories
    ensures f.HtmlFormat? ==> r.Keys == Innermost(f).factories.Keys + {DocumentNode, CodeNode}
    ensures f.HtmlFormat? ==>
      forall k :: k in Innermost(f).factories && k != DocumentNode && k != CodeNode ==>
        r[k] == Innermost(f).factories[k]
    ensures f.HtmlFormat? ==>
      r[DocumentNode] == DocumentRendererFactory(f.templateRenderer, f.subFolder)
      && r[CodeNode] == CodeRendererFactory(f.templateRenderer, f.globalTemplatesPath)
  {
    match f
    case OpaqueFormat(_, _, factories) => factories
    case HtmlFormat(templateRenderer, parent, globalTemplatesPath, subFolder) =>
      var factories := GetNodeRendererFactories(parent);
      var factories := factories[DocumentNode := DocumentRendererFactory(templateRenderer, subFolder)];
      factories[CodeNode := CodeRendererFactory(templateRenderer, globalTemplatesPath)]
  }

  /** The extension is HTML's whatever the template renderer, wrapped
      format, template path and sub-folder. */
  lemma ExtensionIgnoresArguments<D>(a: Format<D>, b: Format<D>)
    requires a.HtmlFormat? && b.HtmlFormat?
    ensures GetFileExtension(a) == GetFileExtension(b) == HTML
  {
  }

  /** The directives are exactly those of the wrapped format. */
  lemma DirectivesDelegated<D>(f: Format<D>)
    requires f.HtmlFormat?
    ensures GetDirectives(f) == GetDirectives(f.format)
  {
  }

  /** The resolved keys are the wrapped format's keys plus Document and Code. */
  lemma FactoryKeys<D>(f: Format<D>)
    requires f.HtmlFormat?
    ensures GetNodeRendererFactories(f).Keys
            == GetNodeRendererFactories(f.format).Keys + {DocumentNode, CodeNode}
  {
  }

  /** Every other kind keeps the wrapped format's factory, or stays absent;
      in particular SpanNode is present only if the wrapped format has it. */
  lemma OtherKindsInherited<D>(f: Format<D>, k: NodeKind)
    requires f.HtmlFormat? && k != DocumentNode && k != CodeNode
    ensures k in GetNodeRendererFactories(f) <==> k in GetNodeRendererFactories(f.format)
    ensures k in GetNodeRendererFactories(f.format) ==>
      GetNodeRendererFactories(f)[k] == GetNodeRendererFactories(f.format)[k]
  {
  }

  /** The Document and Code entries are HtmlFormat's own, whatever the wrapped
      format had under those kinds: a replacement, not a merge. The Document
      factory binds the template renderer and sub-folder, the Code factory the
      template renderer and global templates path. */
  lemma OverriddenKinds<D>(f: Format<D>, node: Node)
    requires f.HtmlFormat?
    ensures GetNodeRendererFactories(f)[DocumentNode] == DocumentRendererFactory(f.templateRenderer, f.subFolder)
    ensures GetNodeRendererFactories(f)[CodeNode] == CodeRendererFactory(f.templateRenderer, f.globalTemplatesPath)
    ensures CreateRenderer(GetNodeRendererFactories(f)[DocumentNode], node)
            == DocumentNodeRenderer(node, f.templateRenderer, f.subFolder)
    ensures CreateRenderer(GetNodeRendererFactories(f)[CodeNode], node)
            == CodeNodeRenderer(node, f.templateRenderer, f.globalTemplatesPath)
  {
  }

  /** The innermost format of a chain of HtmlFormat decorators. */
  function Innermost<D>(f: Format<D>): (r: Format<D>)
    ensures r.OpaqueFormat?
  {
    match f
    case OpaqueFormat(_, _, _) => f
    case HtmlFormat(_, parent, _, _) => Innermost(parent)
  }
}
