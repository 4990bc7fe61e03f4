/**
 The blog card in the home page grid: a status badge over the cover image and
 at most two tags followed by a "+n" counter for the rest.
 */
module BlogCard {
  import opened JsCore
  import opened Entities

  /** The tags shown on the card and the number of hidden ones, if any are hidden. */
  datatype TagRow = TagRow(shown: seq<string>, hidden: Option<int>)

  const ShownTags: nat := 2

  /** `blog.tags.slice(0, 2)` and `+{blog.tags.length - 2}`; nothing when the tags are missing or empty. */
  function Tags(tags: Option<seq<string>>): (r: Option<TagRow>)
    ensures r.None? <==> tags.None? || tags.value == []
    ensures r.Some? && |tags.value| <= ShownTags ==> r.value == TagRow(tags.value, None)
    ensures r.Some? && |tags.value| > ShownTags ==>
      r.value == TagRow(tags.value[..ShownTags], Some(|tags.value| - ShownTags))
  {
    if tags.None? || tags.value == [] then None
    else if |tags.value| <= ShownTags then Some(TagRow(tags.value, None))
    else Some(TagRow(tags.value[..ShownTags], Some(|tags.value| - ShownTags)))
  }

  /** The shown tags are a prefix of the blog's tags, and shown plus hidden accounts for all of them. */
  lemma TagsAccountForAll(tags: seq<string>)
    requires tags != []
    ensures var row := Tags(Some(tags)).value;
      && row.shown <= tags
      && |row.shown| + row.hidden.GetOr(0) == |tags|
      && 1 <= |row.shown| <= ShownTags
      && (row.hidden.Some? ==> row.hidden.value >= 1)
  {
  }

  /** `statusColors[blog.status] || 'bg-muted'`. */
  function StatusColour(status: string): (r: string)
    ensures status == "published" ==> r == "bg-secondary"
    ensures status == "scheduled" ==> r == "bg-accent"
    ensures status !in {"published", "scheduled"} ==> r == "bg-muted"
  {
    if status == "published" then "bg-secondary"
    else if status == "draft" then "bg-muted"
    else if status == "scheduled" then "bg-accent"
    else "bg-muted"
  }

  datatype Badge = Badge(text: string, colour: string)

  /** The badge is drawn only for a non-empty status; its text is the status with a capital first letter. */
  function StatusBadge(status: Option<string>): (r: Option<Badge>)
    ensures r.Some? <==> status.Some? && Truthy(status.value)
    ensures r.Some? ==> r.value.colour == StatusColour(status.value)
    ensures r.Some? ==> |r.value.text| == |status.value| && r.value.text[1..] == status.value[1..]
    ensures r.Some? ==> r.value.text[0] == UpperChar(status.value[0])
  {
    if status.Some? && Truthy(status.value) then
      Some(Badge(UpperFirst(status.value), StatusColour(status.value)))
    else None
  }
}
