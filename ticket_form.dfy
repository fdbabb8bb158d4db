/**
 * The plain ticket form: two text fields held in component state and a
 * submit handler that trims them into a create request. It is also where
 * the submit normalisation both ticket forms share is defined.
 */
module TicketForm {
  import opened Wrappers
  import opened ClientTypes
  import Text

  /**
   * `{title: title.trim(), description: description.trim() || undefined}`:
   * the request a form submits for its two fields.
   */
  function Payload(title: string, description: string): (r: CreateTicketRequest)
    ensures r.title == Text.Trim(title)
    ensures r.description.None? <==> Text.IsBlank(description)
    ensures r.description.Some? ==> r.description.value == Text.Trim(description) && r.description.value != ""
    ensures r.tagIds.None?
  {
    var d := Text.Trim(description);
    CreateTicketRequest(Text.Trim(title), if d == "" then None else Some(d), None)
  }

  /** Submitting the fields of a submitted request again yields the same request. */
  lemma PayloadIdempotent(title: string, description: string)
    ensures var r := Payload(title, description); Payload(r.title, r.description.GetOr("")) == r
  {
    Text.TrimIdempotent(title);
    Text.TrimIdempotent(description);
  }

  /** What `handleSubmit` hands to `onSubmit`: nothing when the trimmed title is empty. */
  function Submitted(title: string, description: string): (r: Option<CreateTicketRequest>)
    ensures r.Some? <==> !Text.IsBlank(title)
    ensures r.Some? ==> r.value == Payload(title, description) && r.value.title != ""
  {
    if Text.IsBlank(title) then None else Some(Payload(title, description))
  }

  /** `disabled={!title.trim() || isSubmitting}`. */
  predicate SubmitDisabled(title: string, isSubmitting: bool) {
    Text.IsBlank(title) || isSubmitting
  }

  /** While nothing is being submitted, the button is enabled exactly when a submit would emit a request. */
  lemma EnabledExactlyWhenSubmitEmits(title: string, description: string)
    ensures !SubmitDisabled(title, false) <==> Submitted(title, description).Some?
  {
  }

  /** The component's state: the two field values. */
  class TicketFormState {
    var title: string
    var description: string

    /** `useState(initialValues?.title || '')` and likewise for the description. */
    constructor (initialTitle: Option<string>, initialDescription: Option<string>)
      ensures title == initialTitle.GetOr("") && description == initialDescription.GetOr("")
    {
      title := initialTitle.GetOr("");
      description := initialDescription.GetOr("");
    }

    method SetTitle(value: string)
      modifies this
      ensures title == value && description == old(description)
    {
      title := value;
    }

    method SetDescription(value: string)
      modifies this
      ensures description == value && title == old(title)
    {
      description := value;
    }

    /** `handleSubmit`: emits the trimmed request unless the trimmed title is empty; the fields stay as typed. */
    method HandleSubmit() returns (emitted: Option<CreateTicketRequest>)
      ensures emitted == Submitted(title, description)
      ensures emitted.Some? ==> emitted.value.title != "" && emitted.value.title == Text.Trim(title)
    {
      var t := Text.Trim(title);
      if t == "" {
        return None;
      }
      var d := Text.Trim(description);
      emitted := Some(CreateTicketRequest(t, if d == "" then None else Some(d), None));
    }
  }
}
