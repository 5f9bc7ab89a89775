/**
 * The `code-block` directive: checks the language of a code node against the
 * code renderer's allow-list, records it on the node, and attaches the node
 * either to a named variable of the Environment or to the end of the
 * Document.
 */
module CodeBlockDirective {
  import opened Wrappers
  import opened Nodes

  /** The name the directive is registered under. */
  function GetName(): (r: string)
    ensures r == "code-block"
  {
    "code-block"
  }

  /** The directive's body is passed to it as raw code. */
  function WantCode(): (r: bool)
    ensures r
  {
    true
  }

  /** The message of the exception raised for a language off the allow-list. */
  function UnsupportedLanguageMessage(language: string): string
  {
    "Unsupported code block language \"" + language + "\""
  }

  predicate IsCodeNode(node: Node?)
  {
    node != null && node.kind == CodeNode
  }

  /**
   * CodeBlockDirective::process. `supported` is the allow-list of
   * CodeNodeRenderer::isLanguageSupported. Fail is the thrown exception; it is
   * raised before anything changes. `options` never influences the outcome.
   */
  method Process(parser: Parser, node: Node?, variable: string, data: string,
                 options: map<string, string>, supported: set<string>)
    returns (outcome: Outcome<string>)
    requires parser.document.kind == DocumentNode
    modifies node, parser.environment, parser.document
    ensures outcome == if IsCodeNode(node) && data !in supported
                       then Fail(UnsupportedLanguageMessage(data)) else Pass
    ensures node != null ==> node.nodes == old(node.nodes)
    ensures node != null ==>
      node.language == if IsCodeNode(node) && data in supported then Some(data) else old(node.language)
    ensures parser.environment.variables ==
      if IsCodeNode(node) && data in supported && variable != ""
      then old(parser.environment.variables)[variable := node]
      else old(parser.environment.variables)
    ensures parser.document.nodes ==
      if IsCodeNode(node) && data in supported && variable == ""
      then old(parser.document.nodes) + [node]
      else old(parser.document.nodes)
    ensures parser.document.language == old(parser.document.language)
  {
    if !IsCodeNode(node) {
      return Pass;
    }
    if data !in supported {
      return Fail(UnsupportedLanguageMessage(data));
    }
    node.SetLanguage(data);
    if variable != "" {
      parser.environment.SetVariable(variable, node);
    } else {
      parser.document.AddNode(node);
    }
    outcome := Pass;
  }
}
