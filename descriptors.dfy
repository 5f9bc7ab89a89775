/**
 * The descriptor data the assemblers and filters work on: the reflected
 * DocBlock as the reflection library hands it over, the tag descriptors built
 * from its tags, and the element Descriptor whose fields the assemblers set.
 */
module Descriptors {
  import opened Wrappers

  /** A reflected tag: its name and, for a generic tag, its (possibly absent)
      description, already rendered to text. */
  datatype Tag = Tag(name: string, description: Option<string>)

  /** A reflected description: its body template. */
  datatype Description = Description(bodyTemplate: string)

  /** A reflected DocBlock. */
  datatype DocBlock = DocBlock(summary: string, description: Description, tags: seq<Tag>)

  /** A tag descriptor: its name and an optional description. */
  datatype TagDescriptor = TagDescriptor(name: string, description: Option<string>)

  /** The descriptor's tag collection: one list of tag descriptors per tag name. */
  type TagMap = map<string, seq<TagDescriptor>>

  /** Collection::fetch(name, new Collection()) on the tag map: the list
      stored under `name`, or a fresh empty one. */
  function Fetch(m: TagMap, name: string): (r: seq<TagDescriptor>)
    ensures name in m ==> r == m[name]
    ensures name !in m ==> r == []
  {
    if name in m then m[name] else []
  }

  /** An element descriptor, as far as the assemblers and filters touch it. */
  class Descriptor {
    var summary: string
    var description: Description
    var tags: TagMap

    constructor ()
      ensures summary == "" && description == Description("") && tags == map[]
    {
      summary := "";
      description := Description("");
      tags := map[];
    }
  }

  // ---------------------------------------------------------------------------
  // Counting the descriptors held by a tag map
  // ---------------------------------------------------------------------------

  /** The number of descriptors stored under the names in `names`. */
  ghost function CountUnder(m: TagMap, names: set<string>): nat
    requires names <= m.Keys
    decreases names
  {
    if names == {} then 0
    else
      var k :| k in names;
      |m[k]| + CountUnder(m, names - {k})
  }

  /** The number of descriptors in all lists of the map. */
  ghost function TotalCount(m: TagMap): nat
  {
    CountUnder(m, m.Keys)
  }

  /** Any name may be taken out first. */
  lemma {:induction false} CountUnderRemove(m: TagMap, names: set<string>, k: string)
    requires names <= m.Keys && k in names
    ensures CountUnder(m, names) == |m[k]| + CountUnder(m, names - {k})
    decreases names
  {
    var j :| j in names && CountUnder(m, names) == |m[j]| + CountUnder(m, names - {j});
    if j != k {
      CountUnderRemove(m, names - {j}, k);
      CountUnderRemove(m, names - {k}, j);
      assert names - {j} - {k} == names - {k} - {j};
    }
  }

  /** The count depends only on the lists stored under the names counted. */
  lemma {:induction false} CountUnderAgree(m1: TagMap, m2: TagMap, names: set<string>)
    requires names <= m1.Keys && names <= m2.Keys
    requires forall k | k in names :: m1[k] == m2[k]
    ensures CountUnder(m1, names) == CountUnder(m2, names)
    decreases names
  {
    if names != {} {
      var k :| k in names && CountUnder(m1, names) == |m1[k]| + CountUnder(m1, names - {k});
      CountUnderRemove(m2, names, k);
      CountUnderAgree(m1, m2, names - {k});
    }
  }

  /** Appending one descriptor to the list under `name` (creating it when
      missing) raises the total by one. */
  lemma AppendCount(m: TagMap, name: string, d: TagDescriptor)
    ensures TotalCount(m[name := Fetch(m, name) + [d]]) == TotalCount(m) + 1
  {
    var m' := m[name := Fetch(m, name) + [d]];
    CountUnderRemove(m', m'.Keys, name);
    var rest := m.Keys - {name};
    assert m'.Keys - {name} == rest;
    CountUnderAgree(m', m, rest);
    if name in m {
      CountUnderRemove(m, m.Keys, name);
    } else {
      assert m.Keys == rest;
    }
  }
}
