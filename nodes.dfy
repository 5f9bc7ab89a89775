/**
 * The parse state the guide directives work on: nodes of the document tree,
 * the Environment's variable table and the Parser that hands both out.
 */
module Nodes {
  import opened Wrappers

  /** The kind of a node: the class its renderer factory is registered under. */
  datatype NodeKind = DocumentNode | CodeNode | SpanNode | OtherNode(className: string)

  /** A node of the document tree. Its kind never changes; a code node
      carries a language, a document node its child nodes. */
  class Node {
    const kind: NodeKind
    var language: Option<string>
    var nodes: seq<Node>

    constructor (kind: NodeKind)
      ensures this.kind == kind && language == None && nodes == []
    {
      this.kind := kind;
      language := None;
      nodes := [];
    }

    /** CodeNode::setLanguage. */
    method SetLanguage(language: string)
      modifies this
      ensures this.language == Some(language) && nodes == old(nodes)
    {
      this.language := Some(language);
    }

    /** DocumentNode::addNode: appends a child. */
    method AddNode(node: Node)
      modifies this
      ensures nodes == old(nodes) + [node] && language == old(language)
    {
      nodes := nodes + [node];
    }
  }

  /** The per-parse Environment; only its variable table is used here. */
  class Environment {
    var variables: map<string, Node>

    constructor ()
      ensures variables == map[]
    {
      variables := map[];
    }

    /** Environment::setVariable: the last write under a name wins. */
    method SetVariable(name: string, node: Node)
      modifies this
      ensures variables == old(variables)[name := node]
    {
      variables := variables[name := node];
    }
  }

  /** The Parser as a directive sees it: the Environment and the Document of
      the current parse, fixed for its lifetime. */
  class Parser {
    const environment: Environment
    const document: Node

    constructor (environment: Environment, document: Node)
      requires document.kind == DocumentNode
      ensures this.environment == environment && this.document == document
    {
      this.environment := environment;
      this.document := document;
    }
  }
}
