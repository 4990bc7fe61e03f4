/**
 The create and edit article forms. Both share the tag editor (append the trimmed
 input while fewer than five tags exist; remove by position) and the field
 editor; they differ in validation (create also demands two tags and, when
 scheduled, a date) and in the payload (only create sends `scheduled_at`).
 */
module BlogForm {
  import opened JsCore
  import opened Entities

  const MaxTags: nat := 5
  const MinTags: nat := 2

  const TitleContentRequired: string := "Title and content are required"
  const TooFewTags: string := "Please add at least 2 tags"
  const ScheduleRequired: string := "Please select a schedule date and time"
  /** The message of the `RangeError` that `toISOString` throws for an invalid date (V8's wording). */
  const InvalidTimeValue: string := "Invalid time value"

  const DefaultCoverImage: string := "https://images.unsplash.com/photo-1517694712202-14dd9538aa97?w=800"

  /** `formData`; `status` is missing only when a loaded blog had none. */
  datatype Fields = Fields(
    title: string,
    description: string,
    content: string,
    tags: seq<string>,
    coverImage: string,
    status: Option<string>,
    scheduledAt: string)

  /** A form page: its fields, the tag input box, the error banner and the in-flight flag. */
  datatype FormPage = FormPage(fields: Fields, tagInput: string, error: string, busy: bool)

  /** The text inputs `handleChange` can update, by their `name` attribute. */
  datatype Field = Title | Description | Content | CoverImage | Status | ScheduledAt

  function Get(f: Fields, k: Field): string {
    match k
    case Title => f.title
    case Description => f.description
    case Content => f.content
    case CoverImage => f.coverImage
    case Status => f.status.GetOr("")
    case ScheduledAt => f.scheduledAt
  }

  /** The create page's first render. */
  function CreateInitial(): (p: FormPage)
    ensures p.fields.tags == [] && p.fields.status == Some("published")
    ensures p.fields.coverImage == DefaultCoverImage
    ensures p.fields.title == "" && p.fields.content == "" && p.fields.scheduledAt == ""
    ensures p.tagInput == "" && p.error == "" && !p.busy
  {
    FormPage(Fields("", "", "", [], DefaultCoverImage, Some("published"), ""), "", "", false)
  }

  /** `handleChange`: set the named field and clear the error banner. */
  function Change(p: FormPage, k: Field, v: string): (r: FormPage)
    ensures Get(r.fields, k) == v
    ensures forall j :: j != k ==> Get(r.fields, j) == Get(p.fields, j)
    ensures r.fields.tags == p.fields.tags
    ensures r.error == "" && r.tagInput == p.tagInput && r.busy == p.busy
  {
    var f := p.fields;
    var f' := match k
      case Title => f.(title := v)
      case Description => f.(description := v)
      case Content => f.(content := v)
      case CoverImage => f.(coverImage := v)
      case Status => f.(status := Some(v))
      case ScheduledAt => f.(scheduledAt := v);
    p.(fields := f', error := "")
  }

  /** Whether `handleAddTag` accepts the current input. */
  predicate CanAddTag(tags: seq<string>, input: string) {
    !Blank(input) && |tags| < MaxTags
  }

  /** `handleAddTag`: append the trimmed input and clear the box, or change nothing. */
  function AddTag(p: FormPage): (r: FormPage)
    ensures CanAddTag(p.fields.tags, p.tagInput) ==>
      r == p.(fields := p.fields.(tags := p.fields.tags + [Trim(p.tagInput)]), tagInput := "")
    ensures !CanAddTag(p.fields.tags, p.tagInput) ==> r == p
    ensures |r.fields.tags| <= if |p.fields.tags| < MaxTags then MaxTags else |p.fields.tags|
  {
    if CanAddTag(p.fields.tags, p.tagInput) then
      p.(fields := p.fields.(tags := p.fields.tags + [Trim(p.tagInput)]), tagInput := "")
    else p
  }

  /** `tags.filter((_, i) => i !== index)`. */
  function RemoveAt<T>(s: seq<T>, index: int): (r: seq<T>)
    ensures 0 <= index < |s| ==> r == s[..index] + s[index + 1..]
    ensures !(0 <= index < |s|) ==> r == s
  {
    if s == [] then []
    else
      var rest := RemoveAt(s[1..], index - 1);
      if index == 0 then rest
      else
        assert 0 < index < |s| ==> s[..index] == [s[0]] + s[1..][..index - 1];
        [s[0]] + rest
  }

  /** `handleRemoveTag(index)`: only the tag list changes. */
  function RemoveTag(p: FormPage, index: int): (r: FormPage)
    ensures 0 <= index < |p.fields.tags| ==>
      |r.fields.tags| == |p.fields.tags| - 1
      && (forall i :: 0 <= i < index ==> r.fields.tags[i] == p.fields.tags[i])
      && (forall i :: index <= i < |r.fields.tags| ==> r.fields.tags[i] == p.fields.tags[i + 1])
    ensures !(0 <= index < |p.fields.tags|) ==> r == p
    ensures r == p.(fields := p.fields.(tags := r.fields.tags))
  {
    p.(fields := p.fields.(tags := RemoveAt(p.fields.tags, index)))
  }

  /** Tags as the editor produces them: at most five, each non-empty and already trimmed. */
  predicate TagsWellFormed(tags: seq<string>) {
    |tags| <= MaxTags && forall i :: 0 <= i < |tags| ==> Truthy(tags[i]) && Trim(tags[i]) == tags[i]
  }

  lemma AddTagKeepsTagsWellFormed(p: FormPage)
    requires TagsWellFormed(p.fields.tags)
    ensures TagsWellFormed(AddTag(p).fields.tags)
  {
    if CanAddTag(p.fields.tags, p.tagInput) {
      TrimIdempotent(p.tagInput);
    }
  }

  lemma RemoveTagKeepsTagsWellFormed(p: FormPage, index: int)
    requires TagsWellFormed(p.fields.tags)
    ensures TagsWellFormed(RemoveTag(p, index).fields.tags)
  {
  }

  /** Removing the tag just added restores the tag list. */
  lemma RemoveUndoesAdd(p: FormPage)
    requires CanAddTag(p.fields.tags, p.tagInput)
    ensures RemoveTag(AddTag(p), |p.fields.tags|).fields.tags == p.fields.tags
  {
    var t := AddTag(p).fields.tags;
    assert t[..|p.fields.tags|] == p.fields.tags;
  }

  /** Typing then pressing Add once per input, in order. */
  function AddEach(p: FormPage, inputs: seq<string>): FormPage
    decreases |inputs|
  {
    if inputs == [] then p else AddEach(AddTag(p.(tagInput := inputs[0])), inputs[1..])
  }

  /** However many tags are typed, the list never grows past five. */
  lemma {:induction false} AddEachNeverExceedsMax(p: FormPage, inputs: seq<string>)
    requires |p.fields.tags| <= MaxTags
    ensures |AddEach(p, inputs).fields.tags| <= MaxTags
    decreases |inputs|
  {
    if inputs != [] {
      AddEachNeverExceedsMax(AddTag(p.(tagInput := inputs[0])), inputs[1..]);
    }
  }

  /** Create-time validation; the first failing rule names the error. */
  function ValidateCreate(f: Fields): (r: Option<string>)
    ensures r == Some(TitleContentRequired) <==> Blank(f.title) || Blank(f.content)
    ensures r == Some(TooFewTags) <==> !Blank(f.title) && !Blank(f.content) && |f.tags| < MinTags
    ensures r == Some(ScheduleRequired) <==>
      !Blank(f.title) && !Blank(f.content) && |f.tags| >= MinTags
      && f.status == Some("scheduled") && !Truthy(f.scheduledAt)
    ensures r.None? || r == Some(TitleContentRequired) || r == Some(TooFewTags) || r == Some(ScheduleRequired)
  {
    if Blank(f.title) || Blank(f.content) then Some(TitleContentRequired)
    else if |f.tags| < MinTags then Some(TooFewTags)
    else if f.status == Some("scheduled") && !Truthy(f.scheduledAt) then Some(ScheduleRequired)
    else None
  }

  /** Edit-time validation: title and content only. */
  function ValidateEdit(f: Fields): (r: Option<string>)
    ensures r.None? <==> !Blank(f.title) && !Blank(f.content)
    ensures r.Some? ==> r.value == TitleContentRequired
  {
    if Blank(f.title) || Blank(f.content) then Some(TitleContentRequired) else None
  }

  /** Whatever the create form accepts, the edit form accepts too. */
  lemma CreateValidationStricterThanEdit(f: Fields)
    ensures ValidateCreate(f).None? ==> ValidateEdit(f).None?
    ensures ValidateEdit(f).Some? ==> ValidateCreate(f) == ValidateEdit(f)
  {
  }

  /** The edit form saves an untagged, scheduled article with no date that the create form rejects. */
  lemma EditAcceptsWhatCreateRejects(title: string, content: string)
    requires !Blank(title) && !Blank(content)
    ensures var f := Fields(title, "", content, [], "", Some("scheduled"), "");
      ValidateEdit(f).None? && ValidateCreate(f) == Some(TooFewTags)
  {
  }

  /** JSON values in request bodies. */
  datatype Json = JStr(s: string) | JStrs(items: seq<string>) | JNull

  type Payload = map<string, Json>

  /** The snake_case body both forms send, without `scheduled_at`; a missing status is dropped by JSON serialization. */
  function ArticleBody(f: Fields): (r: Payload)
    ensures r.Keys == {"title", "description", "content", "tags", "cover_image"} + (if f.status.Some? then {"status"} else {})
    ensures r["title"] == JStr(f.title) && r["description"] == JStr(f.description)
    ensures r["content"] == JStr(f.content) && r["tags"] == JStrs(f.tags)
    ensures r["cover_image"] == JStr(f.coverImage)
    ensures f.status.Some? ==> r["status"] == JStr(f.status.value)
  {
    var body := map[
      "title" := JStr(f.title),
      "description" := JStr(f.description),
      "content" := JStr(f.content),
      "tags" := JStrs(f.tags),
      "cover_image" := JStr(f.coverImage)];
    if f.status.Some? then body["status" := JStr(f.status.value)] else body
  }

  /** The create payload: the article body plus `scheduled_at`, null unless the status is scheduled. */
  function CreatePayload(f: Fields, scheduledIso: string): (r: Payload)
    ensures "scheduled_at" in r
    ensures r["scheduled_at"] == if f.status == Some("scheduled") then JStr(scheduledIso) else JNull
    ensures r - {"scheduled_at"} == ArticleBody(f)
  {
    var body := ArticleBody(f);
    body["scheduled_at" := if f.status == Some("scheduled") then JStr(scheduledIso) else JNull]
  }

  /** The edit payload: the article body, never `scheduled_at`. */
  function EditPayload(f: Fields): (r: Payload)
    ensures "scheduled_at" !in r
    ensures r == CreatePayload(f, "") - {"scheduled_at"}
  {
    ArticleBody(f)
  }

  /** The submit's effect on the page, the body sent (if any) and where it navigated. */
  datatype SubmitStep = SubmitStep(page: FormPage, sent: Option<Payload>, redirect: Option<Route>)

  /**
   The create page's `handleSubmit`. `scheduledIso` is `new Date(scheduled_at).toISOString()`,
   missing when that throws; `created` is how `createBlog` ended.
   */
  function SubmitCreate(p: FormPage, scheduledIso: Option<string>, created: Outcome<int>): (r: SubmitStep)
    ensures ValidateCreate(p.fields).Some? ==>
      r == SubmitStep(p.(error := ValidateCreate(p.fields).value), None, None)
    ensures ValidateCreate(p.fields).None? && p.fields.status == Some("scheduled") && scheduledIso.None? ==>
      r == SubmitStep(p.(error := InvalidTimeValue, busy := false), None, None)
    ensures r.sent.Some? <==>
      ValidateCreate(p.fields).None? && (p.fields.status == Some("scheduled") ==> scheduledIso.Some?)
    ensures r.sent.Some? ==>
      && r.sent.value == CreatePayload(p.fields, scheduledIso.GetOr(""))
      && (created.Returned? ==> r.redirect == Some(BlogRoute(created.value)) && r.page == p.(busy := false))
      && (created.Threw? ==> r.redirect.None? && r.page == p.(error := created.message, busy := false))
  {
    match ValidateCreate(p.fields)
    case Some(message) => SubmitStep(p.(error := message), None, None)
    case None =>
      if p.fields.status == Some("scheduled") && scheduledIso.None? then
        SubmitStep(p.(error := InvalidTimeValue, busy := false), None, None)
      else
        var payload := CreatePayload(p.fields, scheduledIso.GetOr(""));
        match created
        case Returned(id) => SubmitStep(p.(busy := false), Some(payload), Some(BlogRoute(id)))
        case Threw(message) => SubmitStep(p.(error := message, busy := false), Some(payload), None)
  }

  /** A create attempt with fewer than two tags never reaches the backend. */
  lemma FewTagsNeverSent(p: FormPage, iso: Option<string>, created: Outcome<int>)
    requires |p.fields.tags| < MinTags
    ensures SubmitCreate(p, iso, created).sent.None?
  {
  }

  /** The edit page's load: missing description and cover image become '', missing tags []. */
  function LoadEdit(p: FormPage, loaded: Outcome<Blog>): (r: FormPage)
    ensures r.busy == p.busy && r.tagInput == p.tagInput
    ensures loaded.Returned? ==>
      && r.fields.title == loaded.value.title && r.fields.content == loaded.value.content
      && r.fields.description == loaded.value.description.GetOr("")
      && r.fields.tags == loaded.value.tags.GetOr([])
      && r.fields.coverImage == loaded.value.coverImage.GetOr("")
      && r.fields.status == loaded.value.status
      && r.error == p.error
    ensures loaded.Threw? ==> r.fields == p.fields && r.error == loaded.message
  {
    match loaded
    case Returned(b) =>
      p.(fields := Fields(b.title, b.description.GetOr(""), b.content, b.tags.GetOr([]),
                          b.coverImage.GetOr(""), b.status, p.fields.scheduledAt))
    case Threw(message) => p.(error := message)
  }

  /** The edit page's `handleSubmit` for blog `id`; `updated` is how `updateBlog` ended. */
  function SubmitEdit(p: FormPage, id: int, updated: Outcome<()>): (r: SubmitStep)
    ensures ValidateEdit(p.fields).Some? ==> r == SubmitStep(p.(error := TitleContentRequired), None, None)
    ensures ValidateEdit(p.fields).None? ==>
      && r.sent == Some(EditPayload(p.fields))
      && (updated.Returned? ==> r.redirect == Some(BlogRoute(id)) && r.page == p.(busy := false))
      && (updated.Threw? ==> r.redirect.None? && r.page == p.(error := updated.message, busy := false))
  {
    if ValidateEdit(p.fields).Some? then SubmitStep(p.(error := TitleContentRequired), None, None)
    else
      match updated
      case Returned(_) => SubmitStep(p.(busy := false), Some(EditPayload(p.fields)), Some(BlogRoute(id)))
      case Threw(message) => SubmitStep(p.(error := message, busy := false), Some(EditPayload(p.fields)), None)
  }

  /**
   Saving a freshly loaded blog sends the blog's own fields back: a missing
   description or cover image as '', missing tags as [], and a status only when
   the blog had one. It is sent exactly when the loaded title and content are not blank.
   */
  lemma SaveAfterLoadSendsLoadedBlog(p: FormPage, b: Blog, id: int, updated: Outcome<()>)
    ensures var sent := SubmitEdit(LoadEdit(p, Returned(b)), id, updated).sent;
      && (sent.Some? <==> !Blank(b.title) && !Blank(b.content))
      && (sent.Some? ==>
        && sent.value.Keys == {"title", "description", "content", "tags", "cover_image"} + (if b.status.Some? then {"status"} else {})
        && sent.value["title"] == JStr(b.title) && sent.value["content"] == JStr(b.content)
        && sent.value["description"] == JStr(b.description.GetOr(""))
        && sent.value["cover_image"] == JStr(b.coverImage.GetOr(""))
        && sent.value["tags"] == JStrs(b.tags.GetOr([]))
        && (b.status.Some? ==> sent.value["status"] == JStr(b.status.value)))
  {
  }

  /** The edit page's first render: empty fields, no cover image, published. */
  const EditInitial: FormPage := FormPage(Fields("", "", "", [], "", Some("published"), ""), "", "", false)

  /** When the load fails, the form stays empty and a save is refused with the validation message, sending nothing. */
  lemma SaveAfterFailedLoadSendsNothing(message: string, id: int, updated: Outcome<()>)
    ensures var r := SubmitEdit(LoadEdit(EditInitial, Threw(message)), id, updated);
      r.sent.None? && r.redirect.None? && r.page.error == TitleContentRequired
  {
  }
}
