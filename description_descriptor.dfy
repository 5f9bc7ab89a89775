/**
 * A description as the descriptors keep it: the reflected body template and
 * the inline tags whose renderings the template's placeholders take.
 */
module DescriptionDescriptor {
  import opened Wrappers
  import opened Text
  import opened PhpArrays
  import opened Printf
  import opened Descriptors

  /** An inline tag descriptor: its name and its own string form. */
  datatype InlineTagDescriptor = InlineTagDescriptor(name: string, text: string)

  /** How one entry of the tag list is passed to the template: a null tag
      as null, any other as `{` + trim(`@` name ` ` text) + `}`. */
  function TagArgument(tag: Option<InlineTagDescriptor>): (r: Option<string>)
    ensures r.None? <==> tag.None?
  {
    match tag
    case None => None
    case Some(t) => Some("{" + Trim("@" + t.name + " " + t.text) + "}")
  }

  /** The argument list: one argument per tag, in the tags' order. */
  function TagArguments(tags: seq<Option<InlineTagDescriptor>>): (r: seq<Option<string>>)
    ensures |r| == |tags|
    ensures forall i :: 0 <= i < |tags| ==> r[i] == TagArgument(tags[i])
  {
    seq(|tags|, i requires 0 <= i < |tags| => TagArgument(tags[i]))
  }

  /** The rendering of a body template with a list of tags. */
  function Rendered(bodyTemplate: string, tags: seq<Option<InlineTagDescriptor>>): Result<string, FormatError>
  {
    VSprintf(bodyTemplate, TagArguments(tags))
  }

  /** Extending the tag list by one extends the argument list by that tag's argument. */
  lemma TagArgumentsStep(tags: seq<Option<InlineTagDescriptor>>, i: nat)
    requires i < |tags|
    ensures TagArguments(tags[..i + 1]) == TagArguments(tags[..i]) + [TagArgument(tags[i])]
  {
  }

  /** A rendered tag is wrapped in braces around its trimmed `@name text`. */
  lemma TagArgumentShape(t: InlineTagDescriptor)
    ensures var a := TagArgument(Some(t)).value;
      |a| >= 2 && a[0] == '{' && a[|a| - 1] == '}' && a[1..|a| - 1] == Trim("@" + t.name + " " + t.text)
  {
  }

  /** A tag with an empty text renders as `{@name}` (for a name not ending
      in blanks). */
  lemma EmptyTextTag(name: string)
    requires name == [] || !IsTrimChar(name[|name| - 1])
    ensures TagArgument(Some(InlineTagDescriptor(name, ""))) == Some("{@" + name + "}")
  {
    var s := "@" + name;
    assert s[|s| - 1] == if name == [] then '@' else name[|name| - 1];
    TrimDropsTrailingBlanks(s, " ");
    assert "@" + name + " " + "" == s + " ";
    assert Trim(s + " ") == s;
    assert "{" + s + "}" == "{@" + name + "}";
  }

  /** A template without placeholders renders as it stands, whatever the tags. */
  lemma LiteralTemplate(bodyTemplate: string, tags: seq<Option<InlineTagDescriptor>>)
    requires '%' !in bodyTemplate
    ensures Rendered(bodyTemplate, tags) == Success(bodyTemplate)
  {
    FormatLiteral(bodyTemplate, TagArguments(tags), 0);
  }

  /** `%1$s` takes the first tag's rendering, and nothing for a null tag. */
  lemma FirstTagPlaceholder(before: string, after: string, tag: Option<InlineTagDescriptor>,
                            more: seq<Option<InlineTagDescriptor>>)
    requires '%' !in before && '%' !in after
    ensures Rendered(before + "%1$s" + after, [tag] + more)
            == Success(before + (if tag.None? then "" else TagArgument(tag).value) + after)
  {
    var args := TagArguments([tag] + more);
    var arg := TagArgument(tag);
    var rest := args[1..];
    assert args == [arg] + rest;
    FirstPositionalArgument(before, after, arg, rest);
    assert Rendered(before + "%1$s" + after, [tag] + more) == Success(before + ArgumentText(arg) + after);
    assert ArgumentText(arg) == if tag.None? then "" else arg.value;
  }

  class DescriptionDescriptor {
    var description: Description
    var inlineTags: OrderedArray<int, Option<InlineTagDescriptor>>

    ghost predicate Valid()
      reads this
    {
      inlineTags.Valid()
    }

    /** A missing description stands for an empty one; the inline tags are
        stored as a PHP list. */
    constructor (description: Option<Description>, inlineTags: seq<InlineTagDescriptor>)
      ensures Valid()
      ensures this.description == description.GetOr(Description(""))
      ensures GetTags() == FromList(seq(|inlineTags|, i requires 0 <= i < |inlineTags| => Some(inlineTags[i])))
      ensures GetTags().Values() == seq(|inlineTags|, i requires 0 <= i < |inlineTags| => Some(inlineTags[i]))
    {
      this.description := description.GetOr(Description(""));
      this.inlineTags := FromList(seq(|inlineTags|, i requires 0 <= i < |inlineTags| => Some(inlineTags[i])));
    }

    function GetBodyTemplate(): (r: string)
      reads this
      ensures r == description.bodyTemplate
    {
      description.bodyTemplate
    }

    /** The tag array itself, keys included: after replaceTag the keys need
        not be 0, 1, 2, ... */
    function GetTags(): (r: OrderedArray<int, Option<InlineTagDescriptor>>)
      reads this
      requires Valid()
      ensures r.Valid()
      ensures r.keys == inlineTags.keys && r.entries == inlineTags.entries
    {
      inlineTags
    }

    /**
     * DescriptionDescriptor::replaceTag: assigns to a position of the tag
     * array. On a list, a position inside it has its tag replaced and every
     * other position kept; any other position is added at the end.
     */
    method ReplaceTag(position: int, tag: Option<InlineTagDescriptor>)
      requires Valid()
      modifies this
      ensures Valid()
      ensures description == old(description)
      ensures inlineTags == old(inlineTags).Set(position, tag)
      ensures position in GetTags().entries && GetTags().entries[position] == tag
      ensures forall k | k in old(inlineTags.entries) && k != position :: GetTags().entries[k] == old(inlineTags.entries)[k]
      ensures old(inlineTags) == FromList(old(GetTags().Values())) && 0 <= position < |old(GetTags().Values())| ==>
        GetTags().Values() == old(GetTags().Values())[position := tag] && inlineTags == FromList(GetTags().Values())
      ensures old(inlineTags) == FromList(old(GetTags().Values())) && !(0 <= position < |old(GetTags().Values())|) ==>
        GetTags().Values() == old(GetTags().Values()) + [tag]
    {
      ghost var before := GetTags().Values();
      if inlineTags == FromList(before) {
        if 0 <= position < |before| {
          ListSetInside(before, position, tag);
        } else {
          ListSetOutside(before, position, tag);
        }
      }
      inlineTags := inlineTags.Set(position, tag);
    }

    /** DescriptionDescriptor::__toString: the body template formatted with
        one argument per tag; a template vsprintf rejects gives the error. */
    method ToString() returns (r: Result<string, FormatError>)
      requires Valid()
      ensures r == Rendered(GetBodyTemplate(), GetTags().Values())
    {
      var all := GetTags().Values();
      var tags: seq<Option<string>> := [];
      var i := 0;
      while i < |all|
        invariant 0 <= i <= |all|
        invariant tags == TagArguments(all[..i])
      {
        var tag := all[i];
        TagArgumentsStep(all, i);
        if tag.None? {
          tags := tags + [None];
        } else {
          tags := tags + [Some("{" + Trim("@" + tag.value.name + " " + tag.value.text) + "}")];
        }
        i := i + 1;
      }
      assert all[..i] == all;
      r := VSprintf(GetBodyTemplate(), tags);
    }
  }
}
