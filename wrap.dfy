/**
 * The LaTeX `Wrap` sub-directive: one instance per wrapping class, named after
 * that class, handing back the already parsed sub-document unchanged.
 */
module Wrap {
  import opened Nodes

  /** The class is fixed when the directive is built and never changes. */
  datatype Wrap = Wrap(className: string)
  {
    /** The directive is registered under its class name. */
    function GetName(): (r: string)
      ensures r == className
    {
      className
    }

    /** Wrap::processSub: the parsed sub-document, or null, is returned as is;
        the parser, variable name, data and options are not consulted. */
    function ProcessSub(parser: Parser, document: Node?, variable: string, data: string,
                        options: map<string, string>): (r: Node?)
      ensures r == document
    {
      document
    }
  }

  /** Two wrap directives are told apart by their class alone. */
  lemma NameIdentifiesWrap(a: Wrap, b: Wrap)
    ensures a.GetName() == b.GetName() <==> a == b
  {
  }
}
