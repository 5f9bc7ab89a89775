/**
 * The shared steps of the reflector assemblers: copying a DocBlock onto a
 * descriptor with its tags grouped by name, finding the package a DocBlock
 * declares, collapsing repeated parts of a compound type, and un-escaping a
 * default value.
 */
module AssemblerAbstract {
  import opened Wrappers
  import opened Text
  import opened PhpArrays
  import opened Descriptors

  // ---------------------------------------------------------------------------
  // assembleDocBlock
  // ---------------------------------------------------------------------------

  /** The tag map after the descriptors built from `tags` have been filed,
      each under its tag's name, skipping tags the builder filtered out. */
  function AssembledTags(m: TagMap, tags: seq<Tag>, build: Tag -> Option<TagDescriptor>): TagMap
    decreases |tags|
  {
    if |tags| == 0 then m
    else
      var before := AssembledTags(m, tags[..|tags| - 1], build);
      var tag := tags[|tags| - 1];
      match build(tag)
      case None => before
      case Some(d) => before[tag.name := Fetch(before, tag.name) + [d]]
  }

  /** The descriptors built from the tags named `name`, in DocBlock order. */
  function BuiltNamed(tags: seq<Tag>, name: string, build: Tag -> Option<TagDescriptor>): seq<TagDescriptor>
    decreases |tags|
  {
    if |tags| == 0 then []
    else
      var tag := tags[|tags| - 1];
      var before := BuiltNamed(tags[..|tags| - 1], name, build);
      if tag.name == name && build(tag).Some? then before + [build(tag).value] else before
  }

  /** The number of tags the builder did not filter out. */
  function BuiltCount(tags: seq<Tag>, build: Tag -> Option<TagDescriptor>): nat
    decreases |tags|
  {
    if |tags| == 0 then 0
    else BuiltCount(tags[..|tags| - 1], build) + if build(tags[|tags| - 1]).Some? then 1 else 0
  }

  /** The names of the tags the builder did not filter out. */
  function BuiltNames(tags: seq<Tag>, build: Tag -> Option<TagDescriptor>): set<string>
    decreases |tags|
  {
    if |tags| == 0 then {}
    else
      var tag := tags[|tags| - 1];
      BuiltNames(tags[..|tags| - 1], build) + if build(tag).Some? then {tag.name} else {}
  }

  /** Under every name the list grows by exactly the descriptors built from
      the tags of that name, in DocBlock order; filtered tags contribute nothing. */
  lemma {:induction false} AssembledContents(m: TagMap, tags: seq<Tag>, build: Tag -> Option<TagDescriptor>, name: string)
    ensures Fetch(AssembledTags(m, tags, build), name) == Fetch(m, name) + BuiltNamed(tags, name, build)
    decreases |tags|
  {
    if |tags| > 0 {
      AssembledContents(m, tags[..|tags| - 1], build, name);
    }
  }

  /** A name is present afterwards iff it was present before or some tag of
      that name yielded a descriptor: filtered tags never create a list. */
  lemma {:induction false} AssembledNames(m: TagMap, tags: seq<Tag>, build: Tag -> Option<TagDescriptor>)
    ensures AssembledTags(m, tags, build).Keys == m.Keys + BuiltNames(tags, build)
    decreases |tags|
  {
    if |tags| > 0 {
      AssembledNames(m, tags[..|tags| - 1], build);
    }
  }

  /** The number of descriptors added is the number of tags not filtered out. */
  lemma {:induction false} AssembledCount(m: TagMap, tags: seq<Tag>, build: Tag -> Option<TagDescriptor>)
    ensures TotalCount(AssembledTags(m, tags, build)) == TotalCount(m) + BuiltCount(tags, build)
    decreases |tags|
  {
    if |tags| > 0 {
      var prefix := tags[..|tags| - 1];
      AssembledCount(m, prefix, build);
      var tag := tags[|tags| - 1];
      var before := AssembledTags(m, prefix, build);
      if build(tag).Some? {
        AppendCount(before, tag.name, build(tag).value);
      }
    }
  }

  /**
   * AssemblerAbstract::assembleDocBlock. `build` is the project builder's
   * buildDescriptor, None standing for a filtered tag. Without a DocBlock the
   * target is left alone.
   */
  method AssembleDocBlock(docBlock: Option<DocBlock>, target: Descriptor,
                          build: Tag -> Option<TagDescriptor>)
    modifies target
    ensures docBlock.None? ==>
      target.summary == old(target.summary) && target.description == old(target.description)
      && target.tags == old(target.tags)
    ensures docBlock.Some? ==>
      target.summary == docBlock.value.summary && target.description == docBlock.value.description
      && target.tags == AssembledTags(old(target.tags), docBlock.value.tags, build)
  {
    if docBlock.None? {
      return;
    }
    target.summary := docBlock.value.summary;
    target.description := docBlock.value.description;
    var tags := docBlock.value.tags;
    var i := 0;
    while i < |tags|
      invariant 0 <= i <= |tags|
      invariant target.summary == docBlock.value.summary
      invariant target.description == docBlock.value.description
      invariant target.tags == AssembledTags(old(target.tags), tags[..i], build)
    {
      var tag := tags[i];
      assert tags[..i + 1][..i] == tags[..i];
      var tagDescriptor := build(tag);
      if tagDescriptor.None? {
        i := i + 1;
        continue;
      }
      target.tags := target.tags[tag.name := Fetch(target.tags, tag.name) + [tagDescriptor.value]];
      i := i + 1;
    }
    assert tags[..i] == tags;
  }

  // ---------------------------------------------------------------------------
  // extractPackageFromDocBlock
  // ---------------------------------------------------------------------------

  /** DocBlock::getTagsByName: the tags of that name, in order. */
  function TagsByName(tags: seq<Tag>, name: string): (r: seq<Tag>)
    ensures forall i :: 0 <= i < |r| ==> r[i].name == name
    ensures |r| <= |tags|
    decreases |tags|
  {
    if |tags| == 0 then []
    else if tags[0].name == name then [tags[0]] + TagsByName(tags[1..], name)
    else TagsByName(tags[1..], name)
  }

  /** The index of the first tag of that name, or |tags| when there is none. */
  function FirstNamed(tags: seq<Tag>, name: string): (i: nat)
    ensures i <= |tags|
    ensures forall j :: 0 <= j < i ==> tags[j].name != name
    ensures i < |tags| ==> tags[i].name == name
    decreases |tags|
  {
    if |tags| == 0 || tags[0].name == name then 0 else 1 + FirstNamed(tags[1..], name)
  }

  /** The first tag getTagsByName hands back is the first tag of that name. */
  lemma {:induction false} TagsByNameStartsAtFirst(tags: seq<Tag>, name: string)
    ensures |TagsByName(tags, name)| > 0 <==> FirstNamed(tags, name) < |tags|
    ensures |TagsByName(tags, name)| > 0 ==> TagsByName(tags, name)[0] == tags[FirstNamed(tags, name)]
    decreases |tags|
  {
    if |tags| > 0 && tags[0].name != name {
      TagsByNameStartsAtFirst(tags[1..], name);
    }
  }

  /**
   * AssemblerAbstract::extractPackageFromDocBlock: the trimmed description of
   * the first `package` tag (an absent description reads as the empty
   * string), or None without a DocBlock or without such a tag.
   */
  function ExtractPackageFromDocBlock(docBlock: Option<DocBlock>): (r: Option<string>)
    ensures r.None? <==> docBlock.None? || FirstNamed(docBlock.value.tags, "package") == |docBlock.value.tags|
    ensures r.Some? ==>
      var tag := docBlock.value.tags[FirstNamed(docBlock.value.tags, "package")];
      r.value == Trim(tag.description.GetOr(""))
  {
    if docBlock.None? then None
    else
      var packageTags := TagsByName(docBlock.value.tags, "package");
      TagsByNameStartsAtFirst(docBlock.value.tags, "package");
      if |packageTags| == 0 then None
      else Some(Trim(packageTags[0].description.GetOr("")))
  }

  // ---------------------------------------------------------------------------
  // deduplicateTypes
  // ---------------------------------------------------------------------------

  /** A reflected type: a compound (union) of parts, or any other type, known
      here by its string form. */
  datatype Type = Compound(parts: seq<Type>) | Atom(text: string)

  /** Joins strings with a separator, as PHP's implode. */
  function Join(s: seq<string>, separator: string): string
    decreases |s|
  {
    if |s| == 0 then ""
    else if |s| == 1 then s[0]
    else s[0] + separator + Join(s[1..], separator)
  }

  /** The string form of a type; a compound joins its parts with `|`. */
  function TypeString(t: Type): string
    decreases t
  {
    match t
    case Atom(text) => text
    case Compound(parts) =>
      Join(seq(|parts|, i requires 0 <= i < |parts| => TypeString(parts[i])), "|")
  }

  /** The string forms of a list of types. */
  function Strings(parts: seq<Type>): (r: seq<string>)
    ensures |r| == |parts|
    ensures forall i :: 0 <= i < |parts| ==> r[i] == TypeString(parts[i])
  {
    seq(|parts|, i requires 0 <= i < |parts| => TypeString(parts[i]))
  }

  /** The distinct strings of `s`, each where it first occurs. */
  function FirstOccurrences(s: seq<string>): seq<string>
    decreases |s|
  {
    if |s| == 0 then []
    else
      var before := FirstOccurrences(s[..|s| - 1]);
      if s[|s| - 1] in before then before else before + [s[|s| - 1]]
  }

  /** Each string form mapped to the last part that has it. */
  function LastByString(parts: seq<Type>): map<string, Type>
    decreases |parts|
  {
    if |parts| == 0 then map[]
    else
      var last := parts[|parts| - 1];
      LastByString(parts[..|parts| - 1])[TypeString(last) := last]
  }

  /** The first occurrences hold every string of the input once and nothing else. */
  lemma {:induction false} FirstOccurrencesDistinct(s: seq<string>)
    ensures forall i, j :: 0 <= i < j < |FirstOccurrences(s)| ==> FirstOccurrences(s)[i] != FirstOccurrences(s)[j]
    ensures forall x :: x in FirstOccurrences(s) <==> x in s
    decreases |s|
  {
    if |s| > 0 {
      var prefix := s[..|s| - 1];
      FirstOccurrencesDistinct(prefix);
      assert s == prefix + [s[|s| - 1]];
    }
  }

  /** The first occurrences keep the order in which strings first appear:
      a string listed before another occurs in the input before the other's
      first occurrence. */
  lemma {:induction false} FirstOccurrencesOrder(s: seq<string>, i: nat, j: nat)
    requires i < j < |FirstOccurrences(s)|
    ensures exists p :: 0 <= p < |s| && s[p] == FirstOccurrences(s)[i] && FirstOccurrences(s)[j] !in s[..p + 1]
    decreases |s|
  {
    var prefix := s[..|s| - 1];
    var before := FirstOccurrences(prefix);
    FirstOccurrencesDistinct(prefix);
    assert FirstOccurrences(s)[i] == before[i];
    if j < |before| {
      FirstOccurrencesOrder(prefix, i, j);
      var p :| 0 <= p < |prefix| && prefix[p] == before[i] && before[j] !in prefix[..p + 1];
      assert s[..p + 1] == prefix[..p + 1];
      assert s[p] == prefix[p];
    } else {
      var later := s[|s| - 1];
      assert FirstOccurrences(s)[j] == later && later !in prefix;
      assert before[i] in prefix;
      var p :| 0 <= p < |prefix| && prefix[p] == before[i];
      assert s[p] == prefix[p];
      assert s[..p + 1] == prefix[..p + 1];
      assert forall x :: x in prefix[..p + 1] ==> x in prefix;
    }
  }

  /** Every string form of the parts has an entry, and no other string. */
  lemma {:induction false} LastByStringKeys(parts: seq<Type>)
    ensures forall k :: k in LastByString(parts) <==> k in Strings(parts)
    decreases |parts|
  {
    if |parts| > 0 {
      var prefix := parts[..|parts| - 1];
      LastByStringKeys(prefix);
      assert Strings(parts) == Strings(prefix) + [TypeString(parts[|parts| - 1])];
    }
  }

  /** The entry for a string form is the last part that has it. */
  lemma {:induction false} LastByStringIsLast(parts: seq<Type>, p: nat)
    requires p < |parts|
    requires forall q :: p < q < |parts| ==> TypeString(parts[q]) != TypeString(parts[p])
    ensures TypeString(parts[p]) in LastByString(parts)
    ensures LastByString(parts)[TypeString(parts[p])] == parts[p]
    decreases |parts|
  {
    if p < |parts| - 1 {
      var prefix := parts[..|parts| - 1];
      assert TypeString(parts[|parts| - 1]) != TypeString(parts[p]);
      assert prefix[p] == parts[p];
      LastByStringIsLast(prefix, p);
    }
  }

  /**
   * AssemblerAbstract::deduplicateTypes. A compound comes back with one part
   * per distinct string form, in the order the forms first appear, each
   * holding the last part of that form (a PHP array keyed by string form
   * keeps a key's first position and its last value). Anything else,
   * including no type at all, comes back as it is.
   */
  method DeduplicateTypes(t: Option<Type>) returns (r: Option<Type>)
    ensures !(t.Some? && t.value.Compound?) ==> r == t
    ensures t.Some? && t.value.Compound? ==>
      r.Some? && r.value.Compound?
      && Strings(r.value.parts) == FirstOccurrences(Strings(t.value.parts))
      && forall i :: 0 <= i < |r.value.parts| ==>
           TypeString(r.value.parts[i]) in LastByString(t.value.parts)
           && r.value.parts[i] == LastByString(t.value.parts)[TypeString(r.value.parts[i])]
  {
    if !(t.Some? && t.value.Compound?) {
      return t;
    }
    var parts := t.value.parts;
    var normalized: OrderedArray<string, Type> := Empty();
    var i := 0;
    while i < |parts|
      invariant 0 <= i <= |parts|
      invariant normalized.Valid()
      invariant normalized.keys == FirstOccurrences(Strings(parts[..i]))
      invariant normalized.entries == LastByString(parts[..i])
      invariant forall k | k in normalized.entries :: TypeString(normalized.entries[k]) == k
    {
      var part := parts[i];
      assert parts[..i + 1][..i] == parts[..i];
      assert Strings(parts[..i + 1])[..i] == Strings(parts[..i]);
      normalized := normalized.Set(TypeString(part), part);
      i := i + 1;
    }
    assert parts[..i] == parts;
    var values := normalized.Values();
    assert Strings(values) == normalized.keys;
    r := Some(Compound(values));
  }

  // ---------------------------------------------------------------------------
  // pretifyValue
  // ---------------------------------------------------------------------------

  /** AssemblerAbstract::pretifyValue: null stays null, a string is
      un-escaped as PHP's stripcslashes does. */
  function PretifyValue(value: Option<string>): (r: Option<string>)
    ensures r.None? <==> value.None?
    ensures value.Some? ==> |r.value| <= |value.value|
    ensures value.Some? && '\\' !in value.value ==> r == value
  {
    match value
    case None => None
    case Some(s) => Some(StripCSlashes(s))
  }
}
