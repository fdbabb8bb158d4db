/**
 * The request bodies of the ticket endpoints and the checks pydantic runs on
 * them before a handler is called. A body that fails a check is answered
 * with 422 and never reaches the service.
 */
module TicketSchemas {
  import opened Wrappers
  import opened Models
  import Text

  /** `TicketCreate`: `title` required, `description` optional, `tagIds` defaulting to `[]`. */
  datatype TicketCreate = TicketCreate(title: string, description: Option<string>, tagIds: Option<seq<int>>)

  /** `TicketUpdate`: every field optional; `None` means "leave unchanged". */
  datatype TicketUpdate = TicketUpdate(title: Option<string>, description: Option<string>, isCompleted: Option<bool>)

  /** `AddTagsRequest`: `tagIds` required. */
  datatype AddTagsRequest = AddTagsRequest(tagIds: seq<int>)

  predicate TicketCreateOk(c: TicketCreate) {
    |c.title| <= TitleMaxLength
  }

  predicate TicketUpdateOk(u: TicketUpdate) {
    u.title.Some? ==> |u.title.value| <= TitleMaxLength
  }

  function Unprocessable(detail: string): HttpError {
    HttpError(422, detail)
  }

  /** An optional field: absent and `null` both give `None`. */
  function OptionalField<T>(f: Field<T>): Option<T> {
    if f.Present? then Some(f.value) else None
  }

  /** A required string field with `max_length`. */
  function RequiredText(f: Field<string>, maxLength: nat): (r: Result<string>)
    ensures r.Ok? <==> f.Present? && |f.value| <= maxLength
    ensures r.Ok? ==> r.value == f.value
    ensures r.Fail? ==> r.error.status == 422
  {
    match f
    case Missing => Fail(Unprocessable("Field required"))
    case Null => Fail(Unprocessable("Input should be a valid string"))
    case Present(s) =>
      if |s| <= maxLength then Ok(s)
      else Fail(Unprocessable("String should have at most " + Text.DecimalString(maxLength) + " characters"))
  }

  /** Validation of a `TicketCreate` body. */
  function ParseTicketCreate(title: Field<string>, description: Field<string>, tagIds: Field<seq<int>>)
    : (r: Result<TicketCreate>)
    ensures r.Ok? <==> title.Present? && |title.value| <= TitleMaxLength
    ensures r.Ok? ==> TicketCreateOk(r.value) && r.value.title == title.value
    ensures r.Ok? ==> r.value.description == OptionalField(description)
    ensures r.Ok? && tagIds.Missing? ==> r.value.tagIds == Some([])
    ensures r.Ok? && !tagIds.Missing? ==> r.value.tagIds == OptionalField(tagIds)
    ensures r.Fail? ==> r.error.status == 422
  {
    match RequiredText(title, TitleMaxLength)
    case Fail(e) => Fail(e)
    case Ok(t) =>
      var ids := if tagIds.Missing? then Some([]) else OptionalField(tagIds);
      Ok(TicketCreate(t, OptionalField(description), ids))
  }

  /** Validation of a `TicketUpdate` body. */
  function ParseTicketUpdate(title: Field<string>, description: Field<string>, isCompleted: Field<bool>)
    : (r: Result<TicketUpdate>)
    ensures r.Ok? <==> !(title.Present? && |title.value| > TitleMaxLength)
    ensures r.Ok? ==> TicketUpdateOk(r.value)
    ensures r.Ok? ==> r.value == TicketUpdate(OptionalField(title), OptionalField(description), OptionalField(isCompleted))
    ensures r.Fail? ==> r.error.status == 422
  {
    if title.Present? && |title.value| > TitleMaxLength then
      Fail(Unprocessable("String should have at most 200 characters"))
    else
      Ok(TicketUpdate(OptionalField(title), OptionalField(description), OptionalField(isCompleted)))
  }

  /** Validation of an `AddTagsRequest` body. */
  function ParseAddTagsRequest(tagIds: Field<seq<int>>): (r: Result<AddTagsRequest>)
    ensures r.Ok? <==> tagIds.Present?
    ensures r.Ok? ==> r.value.tagIds == tagIds.value
    ensures r.Fail? ==> r.error.status == 422
  {
    match tagIds
    case Present(ids) => Ok(AddTagsRequest(ids))
    case Missing => Fail(Unprocessable("Field required"))
    case Null => Fail(Unprocessable("Input should be a valid list"))
  }

  /** A 200-character title is accepted and a 201-character one is rejected. */
  lemma TitleLengthBoundary(title: string)
    ensures |title| == 200 ==> ParseTicketCreate(Present(title), Missing, Missing).Ok?
    ensures |title| == 201 ==> ParseTicketCreate(Present(title), Missing, Missing).Fail?
    ensures ParseTicketCreate(Missing, Missing, Missing).Fail?
  {
  }

  /** A body with only a title gets no description and an empty tag list. */
  lemma TicketCreateDefaults(title: string)
    requires |title| <= TitleMaxLength
    ensures ParseTicketCreate(Present(title), Missing, Missing) == Ok(TicketCreate(title, None, Some([])))
  {
  }
}
