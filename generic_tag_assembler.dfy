/**
 * The assembler for tags without a dedicated one: the descriptor carries the
 * tag's name and nothing else.
 */
module GenericTagAssembler {
  import opened Wrappers
  import opened Descriptors
  import opened AssemblerAbstract

  /** GenericTagAssembler::buildDescriptor: always a descriptor, named after
      the tag and without a description. */
  function BuildDescriptor(tag: Tag): (r: TagDescriptor)
    ensures r.name == tag.name
    ensures r.description.None?
  {
    TagDescriptor(tag.name, None)
  }

  /** Only the name is read: tags of the same name give the same descriptor,
      whatever their descriptions. */
  lemma SameNameSameDescriptor(a: Tag, b: Tag)
    ensures BuildDescriptor(a) == BuildDescriptor(b) <==> a.name == b.name
  {
  }

  /** The builder when every tag goes through this assembler. */
  function Generic(tag: Tag): Option<TagDescriptor>
  {
    Some(BuildDescriptor(tag))
  }

  /** With this assembler no tag is filtered out: every tag of the DocBlock
      adds one descriptor under its own name. */
  lemma {:induction false} GenericKeepsEveryTag(m: TagMap, tags: seq<Tag>)
    ensures TotalCount(AssembledTags(m, tags, Generic)) == TotalCount(m) + |tags|
    decreases |tags|
  {
    AssembledCount(m, tags, Generic);
    GenericBuiltCount(tags);
  }

  lemma {:induction false} GenericBuiltCount(tags: seq<Tag>)
    ensures BuiltCount(tags, Generic) == |tags|
    decreases |tags|
  {
    if |tags| > 0 {
      GenericBuiltCount(tags[..|tags| - 1]);
    }
  }

  /** Under each name, the generic assembler files one descriptor per tag
      of that name, each carrying that name. */
  lemma {:induction false} GenericFilesByName(tags: seq<Tag>, name: string)
    ensures forall d :: d in BuiltNamed(tags, name, Generic) ==> d == TagDescriptor(name, None)
    ensures (exists i :: 0 <= i < |tags| && tags[i].name == name) <==> |BuiltNamed(tags, name, Generic)| > 0
    decreases |tags|
  {
    if |tags| > 0 {
      var prefix := tags[..|tags| - 1];
      GenericFilesByName(prefix, name);
      if exists i :: 0 <= i < |prefix| && prefix[i].name == name {
        var i :| 0 <= i < |prefix| && prefix[i].name == name;
        assert tags[i] == prefix[i];
      }
      if exists i :: 0 <= i < |tags| && tags[i].name == name {
        var i :| 0 <= i < |tags| && tags[i].name == name;
        if i < |prefix| {
          assert prefix[i] == tags[i];
        }
      }
    }
  }
}
