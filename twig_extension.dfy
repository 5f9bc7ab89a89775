/**
 * The template helpers the Twig extension contributes: the project-wide
 * globals, the breadcrumb and package trails, the member listings, the two
 * sort comparators and the markdown and trans filters.
 */
module TwigExtension {
  import opened Wrappers
  import opened Text
  import opened PhpArrays

  // ---------------------------------------------------------------------------
  // getGlobals
  // ---------------------------------------------------------------------------

  /** The project as the globals see it: the children of its root namespace
      and of its root package. */
  datatype ProjectDescriptor = ProjectDescriptor(namespaceChildren: seq<string>, packageChildren: seq<string>)

  datatype Globals = Globals(project: ProjectDescriptor, usesNamespaces: bool, usesPackages: bool)

  /** Extension::getGlobals. A project uses namespaces once its root
      namespace has a child, and packages only once its root package has
      more than the one default child. */
  function GetGlobals(data: ProjectDescriptor): (r: Globals)
    ensures r.project == data
    ensures r.usesNamespaces <==> |data.namespaceChildren| >= 1
    ensures r.usesPackages <==> |data.packageChildren| >= 2
  {
    Globals(data, |data.namespaceChildren| > 0, |data.packageChildren| > 1)
  }

  /** A project whose only package is the default one does not use packages,
      whereas a single namespace already counts. */
  lemma SingleChildGlobals(data: ProjectDescriptor)
    requires |data.namespaceChildren| == 1 && |data.packageChildren| == 1
    ensures GetGlobals(data).usesNamespaces && !GetGlobals(data).usesPackages
  {
  }

  // ---------------------------------------------------------------------------
  // breadcrumbs and packages
  // ---------------------------------------------------------------------------

  /** A namespace or package: its name and its parent, None when the parent
      is not a descriptor of the same kind (or there is none). */
  datatype Scope = Scope(name: string, parent: Option<Scope>)

  /** The element a template asks about: a namespace, a package, or any other
      descriptor with the namespace and package it belongs to. */
  datatype Element =
    | NamespaceElement(scope: Scope, package: Option<Scope>)
    | PackageElement(scope: Scope, namespace: Option<Scope>)
    | OtherElement(namespace: Option<Scope>, package: Option<Scope>)

  /** The root namespace and the root package are both named `\`. */
  const Root: string := "\\"

  /** The number of scopes on the parent chain from `s` up. */
  function Depth(s: Option<Scope>): nat
  {
    match s
    case None => 0
    case Some(scope) => 1 + Depth(scope.parent)
  }

  /** The chain from `start` up to, but not including, the root (or the end
      of the chain), outermost first. */
  function Ancestors(start: Option<Scope>): seq<Scope>
    decreases Depth(start)
  {
    if start.None? || start.value.name == Root then []
    else Ancestors(start.value.parent) + [start.value]
  }

  /** The trail never holds the root, ends with the starting scope, links
      each scope to the one before it, and begins at the root's child or at
      the top of the chain. */
  lemma {:induction false} AncestorsShape(start: Option<Scope>)
    ensures forall i :: 0 <= i < |Ancestors(start)| ==> Ancestors(start)[i].name != Root
    ensures start.None? || start.value.name == Root <==> Ancestors(start) == []
    ensures Ancestors(start) != [] ==> Ancestors(start)[|Ancestors(start)| - 1] == start.value
    ensures forall i :: 0 < i < |Ancestors(start)| ==> Ancestors(start)[i].parent == Some(Ancestors(start)[i - 1])
    ensures Ancestors(start) != [] ==>
      var top := Ancestors(start)[0].parent;
      top.None? || top.value.name == Root
    decreases Depth(start)
  {
    if start.Some? && start.value.name != Root {
      AncestorsShape(start.value.parent);
    }
  }

  /** Every scope on the trail sits higher than the starting scope's child. */
  lemma {:induction false} AncestorsAbove(start: Option<Scope>, node: Scope)
    requires start == node.parent
    ensures forall s :: s in Ancestors(start) ==> Depth(Some(s)) < Depth(Some(node))
    decreases Depth(start)
  {
    if start.Some? && start.value.name != Root {
      AncestorsAbove(start.value.parent, start.value);
    }
  }

  /** The trail from the parent of a scope never includes that scope. */
  lemma ExcludesItself(node: Scope)
    ensures node !in Ancestors(node.parent)
  {
    AncestorsAbove(node.parent, node);
  }

  /** The while loop of the breadcrumbs and packages closures: climbs from
      `start`, putting each scope in front of those already collected. */
  method CollectAncestors(start: Option<Scope>) returns (results: seq<Scope>)
    ensures results == Ancestors(start)
  {
    results := [];
    var current := start;
    while current.Some? && current.value.name != Root
      invariant Ancestors(start) == Ancestors(current) + results
      decreases Depth(current)
    {
      results := [current.value] + results;
      current := current.value.parent;
    }
  }

  /** The `breadcrumbs` function: the namespaces enclosing the element,
      outermost first; a namespace starts from its parent. */
  method Breadcrumbs(baseNode: Element) returns (results: seq<Scope>)
    ensures baseNode.NamespaceElement? ==> results == Ancestors(baseNode.scope.parent)
    ensures !baseNode.NamespaceElement? ==> results == Ancestors(baseNode.namespace)
  {
    var namespace := if baseNode.NamespaceElement? then baseNode.scope.parent else baseNode.namespace;
    results := CollectAncestors(namespace);
  }

  /** The `packages` function: the packages enclosing the element, outermost
      first; a package starts from its parent. */
  method Packages(baseNode: Element) returns (results: seq<Scope>)
    ensures baseNode.PackageElement? ==> results == Ancestors(baseNode.scope.parent)
    ensures !baseNode.PackageElement? ==> results == Ancestors(baseNode.package)
  {
    var package := if baseNode.PackageElement? then baseNode.scope.parent else baseNode.package;
    results := CollectAncestors(package);
  }

  // ---------------------------------------------------------------------------
  // methods, properties and constants
  // ---------------------------------------------------------------------------

  /** Copies the entries of `b` under the keys `ks` into `a`, one by one. */
  function MergeKeys<V>(a: OrderedArray<string, V>, b: OrderedArray<string, V>, ks: seq<string>): (r: OrderedArray<string, V>)
    requires a.Valid() && b.Valid()
    requires forall i :: 0 <= i < |ks| ==> ks[i] in b.entries
    ensures r.Valid()
    decreases |ks|
  {
    if |ks| == 0 then a
    else
      var k := ks[|ks| - 1];
      MergeKeys(a, b, ks[..|ks| - 1]).Set(k, b.entries[k])
  }

  /** Merging two string-keyed collections, as array_merge does: the
      entries of the second win, keys of the first keep their place. */
  function Merge<V>(a: OrderedArray<string, V>, b: OrderedArray<string, V>): (r: OrderedArray<string, V>)
    requires a.Valid() && b.Valid()
    ensures r.Valid()
  {
    MergeKeys(a, b, b.keys)
  }

  lemma {:induction false} MergeKeysContents<V>(a: OrderedArray<string, V>, b: OrderedArray<string, V>, ks: seq<string>)
    requires a.Valid() && b.Valid()
    requires forall i :: 0 <= i < |ks| ==> ks[i] in b.entries
    ensures forall x :: x in MergeKeys(a, b, ks).entries <==> x in a.entries || x in ks
    ensures forall x | x in MergeKeys(a, b, ks).entries ::
      MergeKeys(a, b, ks).entries[x] == if x in ks then b.entries[x] else a.entries[x]
    decreases |ks|
  {
    if |ks| > 0 {
      var prefix := ks[..|ks| - 1];
      var k := ks[|ks| - 1];
      MergeKeysContents(a, b, prefix);
      MergeKeysStep(a, b, ks);
      var before := MergeKeys(a, b, prefix).entries;
      var after := MergeKeys(a, b, ks).entries;
      forall x
        ensures x in after <==> x in a.entries || x in ks
        ensures x in after ==> after[x] == if x in ks then b.entries[x] else a.entries[x]
      {
        assert x in ks <==> x in prefix || x == k;
      }
    }
  }

  lemma MergeKeysStep<V>(a: OrderedArray<string, V>, b: OrderedArray<string, V>, ks: seq<string>)
    requires a.Valid() && b.Valid() && |ks| > 0
    requires forall i :: 0 <= i < |ks| ==> ks[i] in b.entries
    ensures MergeKeys(a, b, ks).entries
            == MergeKeys(a, b, ks[..|ks| - 1]).entries[ks[|ks| - 1] := b.entries[ks[|ks| - 1]]]
    ensures MergeKeys(a, b, ks[..|ks| - 1]).keys <= MergeKeys(a, b, ks).keys
  {
  }

  lemma {:induction false} MergeKeysPrefix<V>(a: OrderedArray<string, V>, b: OrderedArray<string, V>, ks: seq<string>)
    requires a.Valid() && b.Valid()
    requires forall i :: 0 <= i < |ks| ==> ks[i] in b.entries
    ensures a.keys <= MergeKeys(a, b, ks).keys
    decreases |ks|
  {
    if |ks| > 0 {
      MergeKeysPrefix(a, b, ks[..|ks| - 1]);
      MergeKeysStep(a, b, ks);
    }
  }

  /** The merged collection holds every entry of both, the second's winning
      for a shared key, and lists the first's keys first. */
  lemma MergeContents<V>(a: OrderedArray<string, V>, b: OrderedArray<string, V>)
    requires a.Valid() && b.Valid()
    ensures Merge(a, b).entries == a.entries + b.entries
    ensures a.keys <= Merge(a, b).keys
  {
    MergeKeysContents(a, b, b.keys);
    MergeKeysPrefix(a, b, b.keys);
    var m := Merge(a, b).entries;
    var u := a.entries + b.entries;
    forall k
      ensures k in m <==> k in u
      ensures k in m ==> m[k] == u[k]
    {
      assert k in b.keys <==> k in b.entries;
    }
  }

  /** One `if (method_exists(...)) $members = $members->merge(...)` step:
      None where the descriptor has no such getter. */
  function MergeIfPresent<V>(members: OrderedArray<string, V>, c: Option<OrderedArray<string, V>>): (r: OrderedArray<string, V>)
    requires members.Valid() && (c.Some? ==> c.value.Valid())
    ensures r.Valid()
  {
    if c.Some? then Merge(members, c.value) else members
  }

  function EntriesOf<V>(c: Option<OrderedArray<string, V>>): map<string, V>
  {
    if c.Some? then c.value.entries else map[]
  }

  /** A step adds the getter's entries over those already collected. */
  lemma MergeIfPresentEntries<V>(members: OrderedArray<string, V>, c: Option<OrderedArray<string, V>>)
    requires members.Valid() && (c.Some? ==> c.value.Valid())
    ensures MergeIfPresent(members, c).entries == members.entries + EntriesOf(c)
  {
    if c.Some? {
      MergeContents(members, c.value);
    } else {
      assert members.entries + map[] == members.entries;
    }
  }

  /** The `methods`, `properties` and `constants` functions: the inherited,
      magic and own members, merged in that order onto an empty collection. */
  function Members<V>(inherited: Option<OrderedArray<string, V>>, magic: Option<OrderedArray<string, V>>,
                      own: Option<OrderedArray<string, V>>): (r: OrderedArray<string, V>)
    requires inherited.Some? ==> inherited.value.Valid()
    requires magic.Some? ==> magic.value.Valid()
    requires own.Some? ==> own.value.Valid()
    ensures r.Valid()
  {
    MergeIfPresent(MergeIfPresent(MergeIfPresent(Empty(), inherited), magic), own)
  }

  /** A member declared on the class itself hides a magic one of the same
      name, and either hides an inherited one. */
  lemma MembersPrecedence<V>(inherited: Option<OrderedArray<string, V>>, magic: Option<OrderedArray<string, V>>,
                             own: Option<OrderedArray<string, V>>)
    requires inherited.Some? ==> inherited.value.Valid()
    requires magic.Some? ==> magic.value.Valid()
    requires own.Some? ==> own.value.Valid()
    ensures Members(inherited, magic, own).entries == EntriesOf(inherited) + EntriesOf(magic) + EntriesOf(own)
  {
    var m0: OrderedArray<string, V> := Empty();
    var m1 := MergeIfPresent(m0, inherited);
    var m2 := MergeIfPresent(m1, magic);
    MergeIfPresentEntries(m0, inherited);
    assert m0.entries + EntriesOf(inherited) == EntriesOf(inherited);
    MergeIfPresentEntries(m1, magic);
    MergeIfPresentEntries(m2, own);
  }

  // ---------------------------------------------------------------------------
  // sort_asc / sort_desc
  // ---------------------------------------------------------------------------

  /** The comparator of the `sort_*` filter on the names of two elements. */
  function SortCompare(direction: string, a: string, b: string): (r: int)
    ensures r == 0 <==> ToLower(a) == ToLower(b)
    ensures direction == "asc" ==> r == Spaceship(ToLower(a), ToLower(b))
    ensures direction == "desc" ==> r == Spaceship(ToLower(b), ToLower(a))
    ensures direction != "asc" && direction != "desc" && ToLower(a) != ToLower(b) ==> r == -1
  {
    var aElem := ToLower(a);
    var bElem := ToLower(b);
    if aElem == bElem then 0
    else if (direction == "asc" && Less(bElem, aElem)) || (direction == "desc" && Less(aElem, bElem)) then 1
    else -1
  }

  /** Ascending and descending are antisymmetric orders. */
  lemma SortAntisymmetric(direction: string, a: string, b: string)
    requires direction == "asc" || direction == "desc"
    ensures SortCompare(direction, a, b) == -SortCompare(direction, b, a)
  {
    var x, y := ToLower(a), ToLower(b);
    assert Spaceship(x, y) == -Spaceship(y, x) by {
      LessAsymmetric(x, y);
      if x != y { LessTotal(x, y); }
    }
  }

  /** Ascending order is transitive, and descending order is its mirror. */
  lemma SortTransitive(direction: string, a: string, b: string, c: string)
    requires direction == "asc" || direction == "desc"
    requires SortCompare(direction, a, b) == -1 && SortCompare(direction, b, c) == -1
    ensures SortCompare(direction, a, c) == -1
  {
    if direction == "asc" {
      LessTransitive(ToLower(a), ToLower(b), ToLower(c));
    } else {
      LessTransitive(ToLower(c), ToLower(b), ToLower(a));
    }
  }

  /** Descending is ascending with the arguments swapped. */
  lemma SortDescMirrorsAsc(a: string, b: string)
    ensures SortCompare("desc", a, b) == SortCompare("asc", b, a)
  {
  }

  /** Any other direction answers -1 whichever way two differently named
      elements are compared, so it is no order at all. */
  lemma SortOtherDirection(direction: string, a: string, b: string)
    requires direction != "asc" && direction != "desc" && ToLower(a) != ToLower(b)
    ensures SortCompare(direction, a, b) == -1 && SortCompare(direction, b, a) == -1
  {
  }

  // ---------------------------------------------------------------------------
  // sortByVisibility
  // ---------------------------------------------------------------------------

  /** An element to sort: its name and, when it has one, its visibility. */
  datatype Sortable = Sortable(name: string, visibility: Option<string>)

  /** Public first, then protected, then private; anything else ranks as public. */
  function VisibilityRank(visibility: string): (r: nat)
    ensures r <= 2
    ensures visibility == "protected" <==> r == 1
    ensures visibility == "private" <==> r == 2
  {
    if visibility == "public" then 0
    else if visibility == "protected" then 1
    else if visibility == "private" then 2
    else 0
  }

  /** `<=>` on integers. */
  function IntCompare(x: int, y: int): (r: int)
    ensures r == 0 <==> x == y
    ensures r == -1 <==> x < y
    ensures r == 1 <==> x > y
  {
    if x < y then -1 else if x == y then 0 else 1
  }

  /** The comparator of the `sortByVisibility` filter. */
  function VisibilityCompare(a: Sortable, b: Sortable): (r: int)
    ensures -1 <= r <= 1
    ensures a.visibility.Some? && b.visibility.Some?
            && VisibilityRank(a.visibility.value) != VisibilityRank(b.visibility.value) ==>
      r == IntCompare(VisibilityRank(a.visibility.value), VisibilityRank(b.visibility.value))
    ensures a.visibility.None? || b.visibility.None?
            || VisibilityRank(a.visibility.value) == VisibilityRank(b.visibility.value) ==>
      r == Spaceship(ToLower(a.name), ToLower(b.name))
  {
    var prio := if a.visibility.Some? && b.visibility.Some?
      then IntCompare(VisibilityRank(a.visibility.value), VisibilityRank(b.visibility.value))
      else 0;
    if prio != 0 then prio
    else Spaceship(ToLower(a.name), ToLower(b.name))
  }

  /** Swapping the elements flips the answer. */
  lemma VisibilityAntisymmetric(a: Sortable, b: Sortable)
    ensures VisibilityCompare(a, b) == -VisibilityCompare(b, a)
  {
    var x, y := ToLower(a.name), ToLower(b.name);
    LessAsymmetric(x, y);
    if x != y { LessTotal(x, y); }
  }

  /** Public members come before protected ones, and protected before
      private ones, whatever their names. */
  lemma VisibilityOrder(a: Sortable, b: Sortable)
    requires a.visibility.Some? && b.visibility.Some?
    requires (a.visibility.value == "public" && b.visibility.value == "protected")
          || (a.visibility.value == "protected" && b.visibility.value == "private")
          || (a.visibility.value == "public" && b.visibility.value == "private")
    ensures VisibilityCompare(a, b) == -1
  {
  }

  /** An unknown visibility sorts like public. */
  lemma UnknownVisibilityIsPublic(a: Sortable, b: Sortable)
    requires b.visibility.Some?
    requires b.visibility.value !in {"public", "protected", "private"}
    ensures VisibilityCompare(a, b) == VisibilityCompare(a, b.(visibility := Some("public")))
  {
  }

  /** The comparator as written is not transitive on a collection that mixes
      elements with and without a visibility: the unranked element is
      compared by name with both others, which are ordered by rank. */
  lemma VisibilityCompareNotTransitive()
    ensures var a, b, c := Sortable("z", Some("public")), Sortable("m", None), Sortable("a", Some("private"));
      VisibilityCompare(a, b) == 1 && VisibilityCompare(b, c) == 1 && VisibilityCompare(a, c) == -1
  {
    var z, m, a := ToLower("z"), ToLower("m"), ToLower("a");
    assert z == "z" && m == "m" && a == "a";
    assert Less(m, z) && Less(a, m);
    LessAsymmetric(m, z);
    LessAsymmetric(a, m);
  }

  /** The rank of an element: an element without a visibility ranks like
      public, as an unknown visibility already does. */
  function ElementRank(e: Sortable): (r: nat)
    ensures e.visibility.None? ==> r == 0
    ensures e.visibility.Some? ==> r == VisibilityRank(e.visibility.value)
  {
    if e.visibility.Some? then VisibilityRank(e.visibility.value) else 0
  }

  /** The order sortByVisibility evidently means: by rank, then by lower-cased
      name, for every pair of elements alike. */
  function RankedVisibilityCompare(a: Sortable, b: Sortable): (r: int)
    ensures ElementRank(a) != ElementRank(b) ==> r == IntCompare(ElementRank(a), ElementRank(b))
    ensures ElementRank(a) == ElementRank(b) ==> r == Spaceship(ToLower(a.name), ToLower(b.name))
    ensures a.visibility.Some? && b.visibility.Some? ==> r == VisibilityCompare(a, b)
  {
    var prio := IntCompare(ElementRank(a), ElementRank(b));
    if prio != 0 then prio
    else Spaceship(ToLower(a.name), ToLower(b.name))
  }

  /** The ranked comparator is transitive on every collection. */
  lemma RankedVisibilityTransitive(a: Sortable, b: Sortable, c: Sortable)
    requires RankedVisibilityCompare(a, b) == -1 && RankedVisibilityCompare(b, c) == -1
    ensures RankedVisibilityCompare(a, c) == -1
  {
    if ElementRank(a) == ElementRank(b) == ElementRank(c) {
      LessTransitive(ToLower(a.name), ToLower(b.name), ToLower(c.name));
    }
  }

  /** Swapping the elements flips the ranked comparator's answer. */
  lemma RankedVisibilityAntisymmetric(a: Sortable, b: Sortable)
    ensures RankedVisibilityCompare(a, b) == -RankedVisibilityCompare(b, a)
  {
    var x, y := ToLower(a.name), ToLower(b.name);
    LessAsymmetric(x, y);
    if x != y { LessTotal(x, y); }
  }

  // ---------------------------------------------------------------------------
  // markdown and trans
  // ---------------------------------------------------------------------------

  const PrettyPre: string := "<pre class=\"prettyprint\">"
  const PrettyCode: string := "<code class=\"prettyprint\">"

  /** The step after the markdown conversion: str_replace of `<pre>` and then
      `<code>` by their prettyprint forms, applied to the converted HTML. No
      bare `<pre>` or `<code>` is left. */
  function MarkdownPostProcess(html: string): (r: string)
    ensures !Occurs(r, "<pre>") && !Occurs(r, "<code>")
  {
    assert Separated(PrettyPre, "<pre>") by {
      assert PrettyPre[4] != "<pre>"[4];
    }
    assert Separated(PrettyCode, "<pre>") by {
      assert PrettyCode[1] != "<pre>"[1];
    }
    assert Separated(PrettyCode, "<code>") by {
      assert PrettyCode[5] != "<code>"[5];
    }
    var once := Replace(html, "<pre>", PrettyPre);
    ReplaceLeavesNoOccurrence(html, "<pre>", PrettyPre, "<pre>");
    ReplaceLeavesNoOccurrence(once, "<code>", PrettyCode, "<pre>");
    ReplaceLeavesNoOccurrence(once, "<code>", PrettyCode, "<code>");
    Replace(once, "<code>", PrettyCode)
  }

  /** The prettyprint `<pre>` opens with `<p` and holds no other `<`. */
  lemma PrettyPreShape()
    ensures |PrettyPre| > 1 && PrettyPre[1] == 'p' && '<' !in PrettyPre[1..]
  {
    var tail := PrettyPre[1..];
    assert tail == "pre class=\"prettyprint\">";
  }

  /** The `<code>` pass leaves a prettyprint `<pre>` as it is. */
  lemma CodePassKeepsPrettyPre(rest: string)
    ensures Replace(PrettyPre + rest, "<code>", PrettyCode) == PrettyPre + Replace(rest, "<code>", PrettyCode)
  {
    PrettyPreShape();
    ReplaceSkipsWord(PrettyPre, rest, "<code>", PrettyCode);
  }

  /** The `<pre>` pass leaves a bare `<code>` as it is. */
  lemma PrePassKeepsCode(rest: string)
    ensures Replace("<code>" + rest, "<pre>", PrettyPre) == "<code>" + Replace(rest, "<pre>", PrettyPre)
  {
    assert "<pre>"[1] != "<code>"[1] && '<' !in "<code>"[1..];
    ReplaceSkipsWord("<code>", rest, "<pre>", PrettyPre);
  }

  /** Every `<pre>` becomes its prettyprint form, and the text before it is kept. */
  lemma MarkdownRewritesPre(before: string, after: string)
    requires '<' !in before
    ensures MarkdownPostProcess(before + "<pre>" + after) == before + PrettyPre + MarkdownPostProcess(after)
  {
    var rest := Replace(after, "<pre>", PrettyPre);
    assert before + "<pre>" + after == before + ("<pre>" + after);
    ReplaceSkipsPrefix(before, "<pre>" + after, "<pre>", PrettyPre);
    ReplaceAtNeedle("<pre>", after, PrettyPre);
    ReplaceSkipsPrefix(before, PrettyPre + rest, "<code>", PrettyCode);
    CodePassKeepsPrettyPre(rest);
    assert before + (PrettyPre + Replace(rest, "<code>", PrettyCode))
        == before + PrettyPre + Replace(rest, "<code>", PrettyCode);
  }

  /** Every `<code>` becomes its prettyprint form, and the text before it is kept. */
  lemma MarkdownRewritesCode(before: string, after: string)
    requires '<' !in before
    ensures MarkdownPostProcess(before + "<code>" + after) == before + PrettyCode + MarkdownPostProcess(after)
  {
    var rest := Replace(after, "<pre>", PrettyPre);
    assert before + "<code>" + after == before + ("<code>" + after);
    ReplaceSkipsPrefix(before, "<code>" + after, "<pre>", PrettyPre);
    PrePassKeepsCode(after);
    ReplaceSkipsPrefix(before, "<code>" + rest, "<code>", PrettyCode);
    ReplaceAtNeedle("<code>", rest, PrettyCode);
    assert before + (PrettyCode + Replace(rest, "<code>", PrettyCode))
        == before + PrettyCode + Replace(rest, "<code>", PrettyCode);
  }

  /** A `<` that opens neither tag is kept, and the text before it is kept. */
  lemma MarkdownKeepsOtherAngle(before: string, after: string)
    requires '<' !in before
    requires !("pre>" <= after) && !("code>" <= after)
    ensures MarkdownPostProcess(before + "<" + after) == before + "<" + MarkdownPostProcess(after)
  {
    var rest := Replace(after, "<pre>", PrettyPre);
    var done := Replace(rest, "<code>", PrettyCode);
    var mid := Replace(before + "<" + after, "<pre>", PrettyPre);
    assert mid == before + ("<" + rest) by {
      assert before + "<" + after == before + ("<" + after);
      ReplaceSkipsPrefix(before, "<" + after, "<pre>", PrettyPre);
      AngleSurvivesPrePass(after);
    }
    assert Replace(mid, "<code>", PrettyCode) == before + ("<" + done) by {
      AngleSurvivesPrePass(after);
      ReplaceSkipsPrefix(before, "<" + rest, "<code>", PrettyCode);
      AngleSurvivesCodePass(rest);
    }
    assert before + ("<" + done) == before + "<" + done;
  }

  /** The `<pre>` pass copies a `<` that does not open `<pre>`. */
  lemma AngleSurvivesPrePass(after: string)
    requires !("pre>" <= after) && !("code>" <= after)
    ensures Replace("<" + after, "<pre>", PrettyPre) == "<" + Replace(after, "<pre>", PrettyPre)
    ensures !("code>" <= Replace(after, "<pre>", PrettyPre))
  {
    assert "<pre>" == "<" + "pre>";
    HeadlessPrefix('<', "pre>", after);
    assert ("<" + after)[1..] == after;
    ReplacePrefixFromSource(after, "<pre>", PrettyPre, "code>");
  }

  /** The `<code>` pass copies a `<` that does not open `<code>`. */
  lemma AngleSurvivesCodePass(rest: string)
    requires !("code>" <= rest)
    ensures Replace("<" + rest, "<code>", PrettyCode) == "<" + Replace(rest, "<code>", PrettyCode)
  {
    assert ("<" + rest)[1..] == rest;
    assert "<code>" == "<" + "code>";
    HeadlessPrefix('<', "code>", rest);
  }

  /** HTML without bare `<pre>` or `<code>` passes through unchanged. */
  lemma MarkdownIdentity(html: string)
    requires !Occurs(html, "<pre>") && !Occurs(html, "<code>")
    ensures MarkdownPostProcess(html) == html
  {
    ReplaceWithoutOccurrence(html, "<pre>", PrettyPre);
    ReplaceWithoutOccurrence(html, "<code>", PrettyCode);
  }

  /** The `trans` filter hands its value back as it is. */
  function Trans<T>(value: T): (r: T)
    ensures r == value
  {
    value
  }
}
