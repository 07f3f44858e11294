/** Resolving the field layouts of a union value from what is known of its tag. */
module TagLayout {
  import opened Ir

  datatype UnionFieldLayouts = Found(fieldLayouts: seq<InLayout>, tag: Tag) | Unknown | Null

  /** The tag a NullableUnwrapped union uses for its null case (the source's `bool as u16`). */
  function NullTag(nullableIsOne: bool): Tag {
    if nullableIsOne then 1 else 0
  }

  /** The field layouts of `union` under the known `tag`. Indexing past the
      end of a tag table is the source's slice-index panic. */
  function GetUnionTagLayout(union: UnionLayout, tag: Option<Tag>): (r: Result<UnionFieldLayouts>)
    // No tag known: nothing to specialise, except for the single-shape union, whose tag is 0.
    ensures tag.None? ==> r == if union.NonNullableUnwrapped? then Ok(Found(union.fields, 0)) else Ok(Unknown)
    // A single-shape union whose tag is nevertheless known is not specialised.
    ensures union.NonNullableUnwrapped? && tag.Some? ==> r == Ok(Unknown)
    // A resolved tag is the known one.
    ensures r.Ok? && r.value.Found? && tag.Some? ==> r.value.tag == tag.value
    // Tag tables of plain unions are indexed by the tag.
    ensures (union.NonRecursive? || union.Recursive?) && tag.Some? ==>
      r == if tag.value < |union.tags| then Ok(Found(union.tags[tag.value], tag.value)) else Err(TagOutOfRange(tag.value))
    // NullableWrapped: the null tag is compacted out of the table.
    ensures union.NullableWrapped? && tag.Some? ==>
      (r == Ok(Null) <==> tag.value == union.nullableId)
    ensures union.NullableWrapped? && tag.Some? && tag.value < union.nullableId && tag.value < |union.otherTags| ==>
      r == Ok(Found(union.otherTags[tag.value], tag.value))
    ensures union.NullableWrapped? && tag.Some? && tag.value > union.nullableId && tag.value - 1 < |union.otherTags| ==>
      r == Ok(Found(union.otherTags[tag.value - 1], tag.value))
    // NullableUnwrapped: null exactly for the null tag, the one field set otherwise.
    ensures union.NullableUnwrapped? && tag.Some? ==>
      r == if tag.value == NullTag(union.nullableIsOne) then Ok(Null) else Ok(Found(union.otherFields, tag.value))
    // Only a malformed table (a tag past its end) fails.
    ensures r.Err? <==> tag.Some? && match union
      case NonRecursive(ts) => tag.value >= |ts|
      case Recursive(ts) => tag.value >= |ts|
      case NullableWrapped(n, ts) =>
        (tag.value < n && tag.value >= |ts|) || (tag.value > n && tag.value - 1 >= |ts|)
      case _ => false
  {
    match (union, tag)
    case (NonRecursive(ts), Some(t)) =>
      if t < |ts| then Ok(Found(ts[t], t)) else Err(TagOutOfRange(t))
    case (Recursive(ts), Some(t)) =>
      if t < |ts| then Ok(Found(ts[t], t)) else Err(TagOutOfRange(t))
    case (NonNullableUnwrapped(fs), None) => Ok(Found(fs, 0))
    case (NullableWrapped(nullableId, others), Some(t)) =>
      if t < nullableId then
        if t < |others| then Ok(Found(others[t], t)) else Err(TagOutOfRange(t))
      else if t == nullableId then
        Ok(Null)
      else
        if t - 1 < |others| then Ok(Found(others[t - 1], t)) else Err(TagOutOfRange(t))
    case (NullableUnwrapped(nullableIsOne, fs), Some(t)) =>
      if t == NullTag(nullableIsOne) then Ok(Null) else Ok(Found(fs, t))
    case (_, _) => Ok(Unknown)
  }
}
