/**
 * The filter that drops elements documented as internal.
 */
module StripInternal {
  import opened Descriptors

  /**
   * StripInternal::__invoke. `isInternalAllowed` is the project's setting for
   * internal visibility: it is looked up but plays no part in the outcome. The
   * descriptor is dropped (null) exactly when its tag map has an `internal`
   * entry, even an empty one; otherwise the very same descriptor comes back.
   * The descriptor is dereferenced, so it must not be null.
   */
  function Filter(value: Descriptor, isInternalAllowed: bool): (r: Descriptor?)
    reads value
    ensures r == null <==> "internal" in value.tags
    ensures r != null ==> r == value
  {
    if "internal" in value.tags then null else value
  }

  /** The visibility setting does not change the outcome. */
  lemma IgnoresVisibility(value: Descriptor)
    ensures Filter(value, true) == Filter(value, false)
  {
  }

  /** Filtering what the filter let through lets it through again. */
  lemma Idempotent(value: Descriptor, isInternalAllowed: bool, again: bool)
    requires Filter(value, isInternalAllowed) != null
    ensures Filter(Filter(value, isInternalAllowed), again) == Filter(value, isInternalAllowed)
  {
  }

  /** Only the `internal` entry decides: two descriptors that agree on
      whether it is present get the same verdict. */
  lemma OnlyInternalEntryDecides(a: Descriptor, b: Descriptor, isInternalAllowed: bool)
    requires ("internal" in a.tags) == ("internal" in b.tags)
    ensures (Filter(a, isInternalAllowed) == null) == (Filter(b, isInternalAllowed) == null)
  {
  }
}
