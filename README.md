# phpDocumentor core, modelled in Dafny

This project models the core of phpDocumentor, the documentation generator for PHP, in Dafny. It covers five groups of logic:

- **Guide markup.** The `code-block` directive checks a code node's language against the renderer's allow-list. It then records the language and attaches the node to an Environment variable or to the end of the Document. The LaTeX `Wrap` sub-directive is named after its class and hands its sub-document back.
- **HtmlFormat.** This format decorates another format. It keeps the wrapped format's directives and reports the HTML extension. It resolves the node-renderer factories by taking the wrapped format's map and replacing the Document and Code entries.
- **Descriptor assembly.**
  - `assembleDocBlock` files tag descriptors under their tag names.
  - `extractPackageFromDocBlock` finds the first `@package`.
  - `deduplicateTypes` collapses the parts of a compound type by string form.
  - `pretifyValue` un-escapes default values.
  - The generic tag assembler builds a descriptor from the tag name.
  - The StripInternal filter drops elements tagged `@internal`.
  - DescriptionDescriptor keeps inline tags, replaces them by position and renders them into the body template.
- **Twig extension helpers.**
  - the `usesNamespaces`/`usesPackages` globals
  - the `breadcrumbs`/`packages` trails
  - the member listings
  - the `sort_*` and `sortByVisibility` comparators
  - the markdown post-step and `trans`
- **InitializeBuilderFromConfig.** This pipeline stage creates the project, names it from the configuration, hands it the partials and settings, and adds one version with its guide sets per configured version.

Modules:

- **Support modules.**
  - `Wrappers`: Option, Result and Outcome.
  - `Text`: PHP's `strtolower`, string order and `<=>`, `trim`, `str_replace` and `stripcslashes`.
  - `PhpArrays`: ordered PHP arrays.
  - `Printf`: the `vsprintf` subset that description templates use.
  - `Nodes`: the guide parse state, as classes.
- **One module per source file.** `CodeBlockDirective`, `Wrap`, `HtmlFormat`, `AssemblerAbstract`, `GenericTagAssembler`, `StripInternal`, `DescriptionDescriptor`, `TwigExtension` and `InitializeBuilderFromConfig`.
- **`Descriptors`.** The DocBlock, tag and descriptor data that the assembler and filter modules share.
- **How code that changes state is modelled.** It is imperative Dafny:
  - the directive's `Process`
  - `AssembleDocBlock`, `DeduplicateTypes`, `ReplaceTag` and `ToString`
  - the trail loop
  - the builder stage's nested loops

  Each such method is specified through a function (`AssembledTags`, `FirstOccurrences`/`LastByString`, `Rendered`, `Ancestors`, `Initialized`). Lemmas state the properties of those functions.

The source is PHP, so "null" below means PHP's null. It is modelled as `None` of an `Option`, or as a null reference where the value is an object.

## Model

| member | source | states |
|---|---|---|
| CodeBlockDirective.GetName | src/Guides/RestructuredText/Directives/CodeBlockDirective.php:27-30 | the directive's name is always `code-block` |
| CodeBlockDirective.WantCode | src/Guides/RestructuredText/Directives/CodeBlockDirective.php:53-56 | the directive always wants its body as code |
| CodeBlockDirective.Process | src/Guides/RestructuredText/Directives/CodeBlockDirective.php:32-51 | for a null or non-code node, nothing changes and it passes. For an unsupported language it fails with the `Unsupported code block language "…"` message, before anything changes. Otherwise the node's language becomes exactly `data`. A non-empty variable is bound to the node in the Environment (last write wins) and the Document's children stay the same. An empty variable appends the node as the Document's last child and leaves the variables unchanged. The node's children and the Document's language never change, and `options` plays no part |
| Nodes.Node.SetLanguage | src/Guides/RestructuredText/Directives/CodeBlockDirective.php:42 | the node's language becomes the argument; its children are kept |
| Nodes.Node.AddNode | src/Guides/RestructuredText/Directives/CodeBlockDirective.php:49 | the node is appended as the Document's last child |
| Nodes.Environment.SetVariable | src/Guides/RestructuredText/Directives/CodeBlockDirective.php:46 | the name is bound to the node and every other binding is kept |
| Wrap.Wrap.GetName | src/Guides/RestructuredText/LaTeX/Directives/Wrap.php:24-27 | the name is the class given at construction; being a value, the class never changes |
| Wrap.Wrap.ProcessSub | src/Guides/RestructuredText/LaTeX/Directives/Wrap.php:32-40 | the sub-document is returned as it is (null gives null), whatever the parser, variable, data and options |
| Wrap.NameIdentifiesWrap | src/Guides/RestructuredText/LaTeX/Directives/Wrap.php:19-27 | two wrap directives have the same name exactly when they wrap the same class |
| HtmlFormat.GetFileExtension | src/Guides/HtmlFormat.php:46-49 | an HtmlFormat always reports the HTML extension |
| HtmlFormat.ExtensionIgnoresArguments | src/Guides/HtmlFormat.php:46-49 | any two HtmlFormats report the same HTML extension, whatever their constructor arguments |
| HtmlFormat.DirectivesDelegated | src/Guides/HtmlFormat.php:51-54 | the directives are exactly the wrapped format's |
| HtmlFormat.GetDirectives | src/Guides/HtmlFormat.php:51-54 | through any depth of HtmlFormat decorators, the directives are the innermost format's |
| HtmlFormat.FactoryKeys | src/Guides/HtmlFormat.php:61-73 | the resolved kinds are the wrapped format's plus Document and Code |
| HtmlFormat.OtherKindsInherited | src/Guides/HtmlFormat.php:61-93 | any other kind, SpanNode included, is present iff the wrapped format has it, and then with the wrapped format's factory unchanged |
| HtmlFormat.OverriddenKinds | src/Guides/HtmlFormat.php:63-81 | the Document and Code entries are replaced whatever the wrapped format had. The Document renderer binds the node, the template renderer and the sub-folder; the Code renderer binds the node, the template renderer and the global templates path |
| HtmlFormat.CreateRenderer | src/Guides/HtmlFormat.php:62-78 | invoking a factory binds the node it is given and the values the factory captured |
| HtmlFormat.GetNodeRendererFactories | src/Guides/HtmlFormat.php:59-94 | a format that is not an HtmlFormat gives its own factories. Through any depth of HtmlFormat decorators, the kinds are the innermost format's plus Document and Code, and every other kind keeps the innermost factory. The outermost decorator's own Document and Code factories are the ones installed |
| Descriptors.Fetch | src/phpDocumentor/Descriptor/Builder/Reflector/AssemblerAbstract.php:51 | the list under a name, or an empty new one when the name is missing |
| Descriptors.AppendCount | src/phpDocumentor/Descriptor/Builder/Reflector/AssemblerAbstract.php:50-52 | appending one descriptor under a name, creating the list if needed, adds exactly one to the total |
| AssemblerAbstract.AssembleDocBlock | src/phpDocumentor/Descriptor/Builder/Reflector/AssemblerAbstract.php:33-54 | a null DocBlock leaves summary, description and tags unchanged. Otherwise summary and description are the DocBlock's, and the tag map is `AssembledTags` of the old map and the DocBlock's tags |
| AssemblerAbstract.AssembledContents | src/phpDocumentor/Descriptor/Builder/Reflector/AssemblerAbstract.php:42-53 | under every name, the list grows by exactly the descriptors built from the tags of that name, in DocBlock order; filtered (null) ones are skipped |
| AssemblerAbstract.AssembledNames | src/phpDocumentor/Descriptor/Builder/Reflector/AssemblerAbstract.php:46-52 | a name is present afterwards iff it was before or some tag of that name built a descriptor: a filtered tag never creates a list |
| AssemblerAbstract.AssembledCount | src/phpDocumentor/Descriptor/Builder/Reflector/AssemblerAbstract.php:42-53 | the total number of descriptors grows by the number of tags that were not filtered |
| AssemblerAbstract.TagsByName | src/phpDocumentor/Descriptor/Builder/Reflector/AssemblerAbstract.php:61 | every tag returned carries the requested name |
| AssemblerAbstract.FirstNamed | src/phpDocumentor/Descriptor/Builder/Reflector/AssemblerAbstract.php:67 | the index of the first tag with the name, with no such tag before it |
| AssemblerAbstract.TagsByNameStartsAtFirst | src/phpDocumentor/Descriptor/Builder/Reflector/AssemblerAbstract.php:61-67 | the list of package tags is non-empty iff a package tag exists, and its first entry (`reset`) is the first package tag of the DocBlock |
| AssemblerAbstract.ExtractPackageFromDocBlock | src/phpDocumentor/Descriptor/Builder/Reflector/AssemblerAbstract.php:59-70 | null for a null DocBlock or one without `package` tags; otherwise the trimmed description of the first `package` tag (a null description reads as `''`) |
| AssemblerAbstract.Strings | src/phpDocumentor/Descriptor/Builder/Reflector/AssemblerAbstract.php:82 | the string form of each part, in order |
| AssemblerAbstract.FirstOccurrencesDistinct | src/phpDocumentor/Descriptor/Builder/Reflector/AssemblerAbstract.php:79-85 | the keys of the de-duplicating array are pairwise distinct and are exactly the string forms of the input |
| AssemblerAbstract.FirstOccurrencesOrder | src/phpDocumentor/Descriptor/Builder/Reflector/AssemblerAbstract.php:79-85 | a key listed before another first occurs in the input before the other does |
| AssemblerAbstract.LastByStringKeys | src/phpDocumentor/Descriptor/Builder/Reflector/AssemblerAbstract.php:82 | there is an entry for every string form of the input and for nothing else |
| AssemblerAbstract.LastByStringIsLast | src/phpDocumentor/Descriptor/Builder/Reflector/AssemblerAbstract.php:82 | the entry for a string form is the last part with that form |
| AssemblerAbstract.DeduplicateTypes | src/phpDocumentor/Descriptor/Builder/Reflector/AssemblerAbstract.php:76-89 | a non-compound or null type comes back unchanged. A compound comes back as a compound whose string forms are the distinct forms in first-occurrence order, each part being the last input part of its form |
| AssemblerAbstract.PretifyValue | src/phpDocumentor/Descriptor/Builder/Reflector/AssemblerAbstract.php:91-98 | null maps to null; a string is un-escaped, is never longer, and is unchanged when it has no backslash |
| Text.StripCSlashes | src/phpDocumentor/Descriptor/Builder/Reflector/AssemblerAbstract.php:97 | the decoded string is never longer, and a string without a backslash is unchanged |
| GenericTagAssembler.BuildDescriptor | src/phpDocumentor/Descriptor/Builder/Reflector/Tags/GenericTagAssembler.php:27-30 | always a descriptor (never null), named after the tag, with no description copied |
| GenericTagAssembler.SameNameSameDescriptor | src/phpDocumentor/Descriptor/Builder/Reflector/Tags/GenericTagAssembler.php:29 | two tags give the same descriptor exactly when they have the same name |
| GenericTagAssembler.GenericKeepsEveryTag | src/phpDocumentor/Descriptor/Builder/Reflector/Tags/GenericTagAssembler.php:27-30 | when every tag is built by this assembler, assembling a DocBlock adds one descriptor per tag |
| GenericTagAssembler.GenericFilesByName | src/phpDocumentor/Descriptor/Builder/Reflector/Tags/GenericTagAssembler.php:29 | every descriptor filed under a name carries that name and no description, and a name gets a list iff some tag has it |
| StripInternal.Filter | src/phpDocumentor/Descriptor/Filter/StripInternal.php:48-68 | null exactly when the tag map has an `internal` entry, even an empty one; otherwise the very same descriptor. It reads the descriptor and changes nothing |
| StripInternal.IgnoresVisibility | src/phpDocumentor/Descriptor/Filter/StripInternal.php:50 | the internal-visibility setting does not change the outcome |
| StripInternal.Idempotent | src/phpDocumentor/Descriptor/Filter/StripInternal.php:63-67 | filtering a descriptor the filter let through gives the same descriptor again |
| StripInternal.OnlyInternalEntryDecides | src/phpDocumentor/Descriptor/Filter/StripInternal.php:63-64 | descriptors that agree on having an `internal` entry get the same verdict |
| DescriptionDescriptor.TagArgument | src/phpDocumentor/Descriptor/DocBlock/DescriptionDescriptor.php:65-70 | a null tag gives a null argument and any other tag a non-null one |
| DescriptionDescriptor.TagArguments | src/phpDocumentor/Descriptor/DocBlock/DescriptionDescriptor.php:63-71 | one argument per tag, same length and same order |
| DescriptionDescriptor.TagArgumentShape | src/phpDocumentor/Descriptor/DocBlock/DescriptionDescriptor.php:70 | a rendered tag is `{`, the trimmed `@name text`, then `}` |
| DescriptionDescriptor.EmptyTextTag | src/phpDocumentor/Descriptor/DocBlock/DescriptionDescriptor.php:70 | a tag with an empty body renders as `{@name}` |
| Text.TrimDropsTrailingBlanks | src/phpDocumentor/Descriptor/DocBlock/DescriptionDescriptor.php:70 | trimming a string that starts and ends with non-blanks, followed by blanks, leaves the string |
| Text.Trim | src/phpDocumentor/Descriptor/DocBlock/DescriptionDescriptor.php:70 | the result is the input with exactly its leading and trailing trim characters removed: a substring that neither starts nor ends with one, with only trim characters before and after it, and empty only when the input holds nothing else |
| DescriptionDescriptor.LiteralTemplate | src/phpDocumentor/Descriptor/DocBlock/DescriptionDescriptor.php:73 | a body template without placeholders renders as it stands, whatever the tags |
| DescriptionDescriptor.FirstTagPlaceholder | src/phpDocumentor/Descriptor/DocBlock/DescriptionDescriptor.php:65-73 | `%1$s` is replaced by the first tag's rendering, and by nothing for a null tag |
| Printf.VSprintf | src/phpDocumentor/Descriptor/DocBlock/DescriptionDescriptor.php:73 | a template without `%` is printed as it stands |
| Printf.FormatPrefix | src/phpDocumentor/Descriptor/DocBlock/DescriptionDescriptor.php:73 | a `%`-free stretch at the head of a template is printed ahead of whatever the rest formats to, and the rest's failure is the whole template's failure |
| Printf.FirstPositionalArgument | src/phpDocumentor/Descriptor/DocBlock/DescriptionDescriptor.php:73 | `%1$s` prints the first argument, and a null argument as nothing |
| DescriptionDescriptor.DescriptionDescriptor.constructor | src/phpDocumentor/Descriptor/DocBlock/DescriptionDescriptor.php:25-29 | a null description becomes an empty one, and the tags are stored as a list in the given order |
| DescriptionDescriptor.DescriptionDescriptor.GetBodyTemplate | src/phpDocumentor/Descriptor/DocBlock/DescriptionDescriptor.php:31-34 | the stored description's body template |
| DescriptionDescriptor.DescriptionDescriptor.GetTags | src/phpDocumentor/Descriptor/DocBlock/DescriptionDescriptor.php:46-49 | the stored tag array itself, with its keys and its iteration order |
| DescriptionDescriptor.DescriptionDescriptor.ReplaceTag | src/phpDocumentor/Descriptor/DocBlock/DescriptionDescriptor.php:36-39 | the array gets the tag (possibly null) at the position, whatever the position, and every other key keeps its tag. On a list, a position inside holds the new tag and every other position is unchanged; a position outside is appended. The description is kept |
| PhpArrays.ListSetInside | src/phpDocumentor/Descriptor/DocBlock/DescriptionDescriptor.php:38 | assigning to an index of a PHP list replaces that element only |
| PhpArrays.ListSetOutside | src/phpDocumentor/Descriptor/DocBlock/DescriptionDescriptor.php:38 | assigning to a key outside a PHP list appends the value |
| DescriptionDescriptor.DescriptionDescriptor.ToString | src/phpDocumentor/Descriptor/DocBlock/DescriptionDescriptor.php:61-74 | the body template formatted by vsprintf with one argument per tag, in the array's iteration order |
| PhpArrays.OrderedArray.Set | src/phpDocumentor/Descriptor/Builder/Reflector/AssemblerAbstract.php:82 | a PHP array assignment: an existing key keeps its place and gets the new value; a new key is appended |
| TwigExtension.GetGlobals | src/phpDocumentor/Transformer/Writer/Twig/Extension.php:99-106 | the project, plus `usesNamespaces` iff the root namespace has at least one child and `usesPackages` iff the root package has at least two |
| TwigExtension.SingleChildGlobals | src/phpDocumentor/Transformer/Writer/Twig/Extension.php:103-104 | one root namespace child already counts as using namespaces; one root package child does not count as using packages |
| TwigExtension.AncestorsShape | src/phpDocumentor/Transformer/Writer/Twig/Extension.php:132-135 | the trail never holds a root `\`. It is empty exactly when the start is null or the root. It ends with the start, links each scope to the previous one as its parent, and begins below the root or at the top of the chain |
| TwigExtension.ExcludesItself | src/phpDocumentor/Transformer/Writer/Twig/Extension.php:129-131 | the trail started from a scope's parent never contains that scope |
| TwigExtension.CollectAncestors | src/phpDocumentor/Transformer/Writer/Twig/Extension.php:132-135 | the while loop's result is the trail from the start, outermost first |
| TwigExtension.Breadcrumbs | src/phpDocumentor/Transformer/Writer/Twig/Extension.php:127-138 | the trail of namespaces, started from a namespace's parent or from an element's namespace |
| TwigExtension.Packages | src/phpDocumentor/Transformer/Writer/Twig/Extension.php:142-153 | the trail of packages, started from a package's parent or from an element's package |
| TwigExtension.MergeContents | src/phpDocumentor/Transformer/Writer/Twig/Extension.php:158 | a merge holds the entries of both collections, the second winning for a shared key, and keeps the first's keys first |
| TwigExtension.MergeIfPresentEntries | src/phpDocumentor/Transformer/Writer/Twig/Extension.php:157-159 | a step with a getter adds that getter's entries over those collected so far; without the getter it changes nothing |
| TwigExtension.MembersPrecedence | src/phpDocumentor/Transformer/Writer/Twig/Extension.php:155-170 | the listing holds the inherited, magic and own members, each later group hiding an earlier one of the same name |
| TwigExtension.Members | src/phpDocumentor/Transformer/Writer/Twig/Extension.php:171-202 | properties and constants are listed the same way, as a well-formed collection |
| TwigExtension.SortCompare | src/phpDocumentor/Transformer/Writer/Twig/Extension.php:251-265 | 0 exactly when the lowercased names are equal. `asc` is `<=>` on the lowercased names and `desc` is its reverse. Any other direction gives -1 for unequal names |
| TwigExtension.SortAntisymmetric | src/phpDocumentor/Transformer/Writer/Twig/Extension.php:251-265 | for `asc` and `desc`, swapping the arguments negates the answer |
| TwigExtension.SortTransitive | src/phpDocumentor/Transformer/Writer/Twig/Extension.php:258-264 | for `asc` and `desc`, the order is transitive |
| TwigExtension.SortDescMirrorsAsc | src/phpDocumentor/Transformer/Writer/Twig/Extension.php:258-260 | `desc` compares as `asc` with the arguments swapped |
| TwigExtension.SortOtherDirection | src/phpDocumentor/Transformer/Writer/Twig/Extension.php:264 | any other direction answers -1 both ways for differently named elements |
| Text.ToLower | src/phpDocumentor/Transformer/Writer/Twig/Extension.php:252-253 | strtolower keeps the length and lowercases each character, and no ASCII capital is left |
| Text.LessTransitive | src/phpDocumentor/Transformer/Writer/Twig/Extension.php:258-259 | PHP's byte-wise string order is transitive |
| Text.Spaceship | src/phpDocumentor/Transformer/Writer/Twig/Extension.php:297 | `<=>` on strings is 0, -1 or 1 exactly when equal, smaller or greater |
| TwigExtension.VisibilityRank | src/phpDocumentor/Transformer/Writer/Twig/Extension.php:275-286 | public ranks 0, protected 1, private 2, and anything else ranks 0 |
| TwigExtension.VisibilityCompare | src/phpDocumentor/Transformer/Writer/Twig/Extension.php:282-298 | when both elements have a visibility and the ranks differ, the answer is the rank order. Otherwise, tie or missing visibility, it is `<=>` on the lowercased names |
| TwigExtension.VisibilityAntisymmetric | src/phpDocumentor/Transformer/Writer/Twig/Extension.php:282-298 | swapping the elements negates the answer |
| TwigExtension.VisibilityOrder | src/phpDocumentor/Transformer/Writer/Twig/Extension.php:275-287 | public sorts before protected before private, whatever the names |
| TwigExtension.UnknownVisibilityIsPublic | src/phpDocumentor/Transformer/Writer/Twig/Extension.php:285-286 | an unknown visibility sorts as public |
| TwigExtension.VisibilityCompareNotTransitive | src/phpDocumentor/Transformer/Writer/Twig/Extension.php:282-298 | for a public `z`, an unranked `m` and a private `a`, the comparator answers z > m and m > a, yet z < a |
| TwigExtension.ElementRank | src/phpDocumentor/Transformer/Writer/Twig/Extension.php:275-286 | an element without a visibility ranks 0, like public; any other ranks by its visibility |
| TwigExtension.RankedVisibilityCompare | src/phpDocumentor/Transformer/Writer/Twig/Extension.php:282-298 | rank order first, then `<=>` on the lowercased names. It agrees with the source's comparator whenever both elements have a visibility |
| TwigExtension.RankedVisibilityTransitive | src/phpDocumentor/Transformer/Writer/Twig/Extension.php:282-298 | the ranked comparator is transitive on all elements |
| TwigExtension.RankedVisibilityAntisymmetric | src/phpDocumentor/Transformer/Writer/Twig/Extension.php:282-298 | swapping the elements negates the ranked comparator's answer |
| TwigExtension.MarkdownPostProcess | src/phpDocumentor/Transformer/Writer/Twig/Extension.php:221-225 | after the rewrite no bare `<pre>` or `<code>` is left |
| TwigExtension.MarkdownRewritesPre | src/phpDocumentor/Transformer/Writer/Twig/Extension.php:221-225 | a `<pre>` becomes `<pre class="prettyprint">`; the text before it is kept and the rewrite carries on after it |
| TwigExtension.MarkdownRewritesCode | src/phpDocumentor/Transformer/Writer/Twig/Extension.php:221-225 | a `<code>` becomes `<code class="prettyprint">`; the text before it is kept and the rewrite carries on after it |
| TwigExtension.MarkdownKeepsOtherAngle | src/phpDocumentor/Transformer/Writer/Twig/Extension.php:221-225 | for a `<`-free prefix followed by a `<` that opens neither tag, the prefix and the `<` are kept and the rewrite carries on after them. Cutting the input at its first `<` and taking the case that applies, the two lemmas above, this one and `MarkdownIdentity` (for an input without `<`) fix the result for every input |
| Text.Replace | src/phpDocumentor/Transformer/Writer/Twig/Extension.php:221-225 | str_replace with one needle: a replacement as long as the needle keeps the length, and replacing the needle by itself changes nothing |
| Text.ReplaceSkipsPrefix | src/phpDocumentor/Transformer/Writer/Twig/Extension.php:221-225 | str_replace copies a stretch without the needle's first character unchanged |
| TwigExtension.MarkdownIdentity | src/phpDocumentor/Transformer/Writer/Twig/Extension.php:221-225 | HTML without bare `<pre>` or `<code>` is left unchanged |
| Text.ReplaceLeavesNoOccurrence | src/phpDocumentor/Transformer/Writer/Twig/Extension.php:221-225 | after str_replace, the needle, or any pattern the replacement cannot help to form, does not occur |
| TwigExtension.Trans | src/phpDocumentor/Transformer/Writer/Twig/Extension.php:231-233 | `trans` returns its value unchanged |
| InitializeBuilderFromConfig.Title | src/phpDocumentor/Pipeline/Stage/InitializeBuilderFromConfig.php:40 | the configured title, or `''` when it or its section is absent |
| InitializeBuilderFromConfig.Settings | src/phpDocumentor/Pipeline/Stage/InitializeBuilderFromConfig.php:42 | the configured settings, or an empty map when absent |
| InitializeBuilderFromConfig.VersionConfigs | src/phpDocumentor/Pipeline/Stage/InitializeBuilderFromConfig.php:44 | the configured versions, or none when absent |
| InitializeBuilderFromConfig.GuideSets | src/phpDocumentor/Pipeline/Stage/InitializeBuilderFromConfig.php:47-49 | one guide set per guide, in order, with an empty leading string and the guide's source and output |
| InitializeBuilderFromConfig.Versions | src/phpDocumentor/Pipeline/Stage/InitializeBuilderFromConfig.php:44-53 | one version per configured version, in order, with its number and the guide sets of its guides (none when `guides` is absent) |
| InitializeBuilderFromConfig.VersionsAppend | src/phpDocumentor/Pipeline/Stage/InitializeBuilderFromConfig.php:44-53 | each configured version is turned into its descriptor independently of the others |
| InitializeBuilderFromConfig.CallsFor | src/phpDocumentor/Pipeline/Stage/InitializeBuilderFromConfig.php:39-53 | the project is created first and never again, then named, given its partials and given its settings, in that order, and then one version is added per configured version |
| InitializeBuilderFromConfig.CallsForStep | src/phpDocumentor/Pipeline/Stage/InitializeBuilderFromConfig.php:44-53 | each further configured version adds exactly one addVersion call, at the end |
| InitializeBuilderFromConfig.EmptyConfiguration | src/phpDocumentor/Pipeline/Stage/InitializeBuilderFromConfig.php:39-44 | without a `phpdocumentor` section the project is unnamed, with the partials, no settings and no versions |
| InitializeBuilderFromConfig.CollectGuideSets | src/phpDocumentor/Pipeline/Stage/InitializeBuilderFromConfig.php:45-49 | the loop over one version's guides collects exactly `GuideSets` of them: one set per guide, in order |
| InitializeBuilderFromConfig.InitializeBuilderFromConfig.constructor | src/phpDocumentor/Pipeline/Stage/InitializeBuilderFromConfig.php:29-32 | the stage keeps the partials it is given |
| InitializeBuilderFromConfig.InitializeBuilderFromConfig.Invoke | src/phpDocumentor/Pipeline/Stage/InitializeBuilderFromConfig.php:34-56 | the same payload is returned. Its builder holds the project named by `Title`, with exactly the stage's partials, the `Settings`, and the `Versions` of the configuration. The builder calls are create first, then the setters, then one addVersion per version |
| InitializeBuilderFromConfig.ProjectDescriptorBuilder.CreateProjectDescriptor | src/phpDocumentor/Pipeline/Stage/InitializeBuilderFromConfig.php:39 | the builder holds a fresh, unnamed and empty project, and the call is recorded |
| InitializeBuilderFromConfig.ProjectDescriptorBuilder.SetName | src/phpDocumentor/Pipeline/Stage/InitializeBuilderFromConfig.php:40 | the project takes the name, every other field is kept, and the call is recorded |
| InitializeBuilderFromConfig.ProjectDescriptorBuilder.SetPartials | src/phpDocumentor/Pipeline/Stage/InitializeBuilderFromConfig.php:41 | the project takes the partials, every other field is kept, and the call is recorded |
| InitializeBuilderFromConfig.ProjectDescriptorBuilder.SetCustomSettings | src/phpDocumentor/Pipeline/Stage/InitializeBuilderFromConfig.php:42 | the project takes the settings, every other field is kept, and the call is recorded |
| InitializeBuilderFromConfig.ProjectDescriptorBuilder.AddVersion | src/phpDocumentor/Pipeline/Stage/InitializeBuilderFromConfig.php:52 | the version is added after those already present |

## Left out

- **Parsedown.** The markdown conversion is a foreign library. `MarkdownPostProcess` takes the converted HTML as its input.
- **LinkRenderer.** The LinkRenderer-backed functions and filters (`path`, `link`, `route`, the `description` filter), `setDestination` and the extension's constructor are not modelled, because LinkRenderer is not part of this model.
- **Other Twig wiring.** The `export` filter (PHP's var_export) and the registration of TwigFunction/TwigFilter objects are not modelled.
- **uasort.** The sort algorithm is not modelled; only the two comparators are.
- TwigExtension.SortCompare: orders names byte by byte. PHP's `>`/`<` compare numeric strings as numbers, and that is not modelled. `strtolower` is modelled on ASCII letters only.
- TwigExtension.VisibilityCompare: the same simplification of `<=>` on names applies. The model keeps the comparator as written; see "## Findings" for its mixed-collection behaviour.
- TwigExtension.Members: Collection::merge is taken to behave as array_merge over string keys, because Collection is not part of this model. The three getters, when present, are passed in as already built collections.
- CodeBlockDirective.Process: CodeNodeRenderer::isLanguageSupported is a parameter, the set `supported`, because its list is not part of this model. The thrown exception is the `Fail` outcome.
- HtmlFormat.CreateRenderer: DocumentNodeRenderer and CodeNodeRenderer are opaque values recording what they were built with; rendering itself is not modelled.
- HtmlFormat.GetNodeRendererFactories: the factory array is a map, so the iteration order of its keys is not modelled. The value of Format::HTML is taken to be `html`, because src/Guides/RestructuredText/Formats/Format.php is outside this model.
- StripInternal.Filter: Collection::fetch('internal') stores a null entry when the key is missing, and this side effect is not modelled because Collection is not part of this model. The filter only reads the descriptor. The descriptor is dereferenced, so the parameter is non-null.
- AssemblerAbstract.AssembleDocBlock: the project builder's buildDescriptor is a parameter returning None for a filtered tag. The tag map is a map, so the order of its names is not modelled.
- AssemblerAbstract.DeduplicateTypes: types other than Compound are known only by their string form. A compound's string form is taken to be its parts joined by `|`.
- AssemblerAbstract.ExtractPackageFromDocBlock: a tag's description is taken as already rendered text (null when absent); the reflection library's Description rendering is not modelled.
- Text.StripCSlashes: modelled after the C implementation of PHP's stripcslashes, which is not part of this model:
  - the escapes `\n \t \r \a \v \b \f \\`
  - `\x` with one or two hex digits
  - one to three octal digits taken modulo 256
  - a backslash before any other character is dropped
  - a trailing lone backslash is kept
- Printf.Format: only `%%`, `%N$s` and `%s` are modelled, a null argument printing as nothing. Every other conversion, and a too-short argument list, is a `Failure`. PHP's exact failure behaviour (an exception or false) is not modelled.
- DescriptionDescriptor.InlineTagDescriptor: the tag's own string form (its `__toString`) is carried as a field, because src/phpDocumentor/Descriptor/DocBlock/InlineTagDescriptor.php is outside this model.
- DescriptionDescriptor.DescriptionDescriptor.constructor: takes the tags as a sequence and stores them under the keys 0 to n-1. The source stores whatever array it is given, keys included; an array that is not a list is not modelled at construction. `ReplaceTag` can still give the stored array other keys, and the rest of the model handles that.
- InitializeBuilderFromConfig.ProjectDescriptorBuilder.CreateProjectDescriptor: src/phpDocumentor/Descriptor/ProjectDescriptorBuilder.php is outside this model, so the builder's internals are not modelled. A fresh project is modelled as unnamed and empty. Collection::fromClassString's type checking of the guide sets is not modelled. The name of GuideSetDescriptor's leading argument is assumed.
- Nodes.Node: the guide node classes are one class with a fixed kind. Only the language of a code node and the children of a document node are modelled.

## Findings

| source | as written | input that shows it | evidently intended | confidence | as-written member | corrected member |
|---|---|---|---|---|---|---|
| src/phpDocumentor/Transformer/Writer/Twig/Extension.php:282-298 | the visibility ranks are compared only when both elements implement VisibilityInterface; otherwise the names decide | a public `z`, an element `m` without a visibility and a private `a`: `z > m`, `m > a`, but `z < a`, so uasort's result on such a mixed collection depends on the input order | one total order, by rank and then by name, with an element without a visibility ranked like public | not executed; low, since templates mostly sort collections of one kind | TwigExtension.VisibilityCompareNotTransitive | TwigExtension.RankedVisibilityTransitive |
