/**
 * The validating ticket form: per-field validators, an error record and a
 * `touched` flag per field held in component state, and a submit handler
 * that validates both fields before it emits the normalised request.
 */
module EnhancedTicketForm {
  import opened Wrappers
  import opened ClientTypes
  import Text
  import TicketForm
  import TicketSchemas

  /** The messages the validators return, one constructor per message. */
  datatype FieldError = TitleRequired | TitleTooShort | TitleTooLong | DescriptionTooLong {
    function Message(): string {
      match this
      case TitleRequired => "Title is required"
      case TitleTooShort => "Title must be at least 3 characters"
      case TitleTooLong => "Title must not exceed 200 characters"
      case DescriptionTooLong => "Description must not exceed 2000 characters"
    }
  }

  const TitleMinTrimmed := 3
  const TitleMax := 200
  const DescriptionMax := 2000

  /**
   * `validateTitle`: required and minimum length on the trimmed text, in that
   * order, then the maximum on the text as typed.
   */
  function ValidateTitle(value: string): Option<FieldError> {
    var t := Text.Trim(value);
    if t == "" then Some(TitleRequired)
    else if |t| < TitleMinTrimmed then Some(TitleTooShort)
    else if |value| > TitleMax then Some(TitleTooLong)
    else None
  }

  /** Each title message is returned exactly in its own case, and no message exactly when all three checks pass. */
  lemma ValidateTitleCases(value: string)
    ensures ValidateTitle(value) == Some(TitleRequired) <==> Text.IsBlank(value)
    ensures ValidateTitle(value) == Some(TitleTooShort) <==> 0 < |Text.Trim(value)| < TitleMinTrimmed
    ensures ValidateTitle(value) == Some(TitleTooLong) <==> |Text.Trim(value)| >= TitleMinTrimmed && |value| > TitleMax
    ensures ValidateTitle(value).None? <==> |Text.Trim(value)| >= TitleMinTrimmed && |value| <= TitleMax
  {
  }

  /** `validateDescription`: only an over-long description is an error. */
  function ValidateDescription(value: string): (r: Option<FieldError>)
    ensures r.Some? <==> |value| > DescriptionMax
    ensures r.Some? ==> r.value == DescriptionTooLong
  {
    if value != "" && |value| > DescriptionMax then Some(DescriptionTooLong) else None
  }

  /** The `errors` state: at most one message per field. */
  datatype FormErrors = FormErrors(title: Option<FieldError>, description: Option<FieldError>)

  predicate NoErrors(e: FormErrors) {
    e.title.None? && e.description.None?
  }

  /** The error record `validateForm` stores. */
  function FormErrorsOf(title: string, description: string): FormErrors {
    FormErrors(ValidateTitle(title), ValidateDescription(description))
  }

  /** `validateForm` accepts exactly the fields within the three length bounds. */
  lemma ValidFormExactly(title: string, description: string)
    ensures NoErrors(FormErrorsOf(title, description))
        <==> |Text.Trim(title)| >= TitleMinTrimmed && |title| <= TitleMax && |description| <= DescriptionMax
  {
  }

  /** What `handleSubmit` hands to `onSubmit`: the normalised request, and only for valid fields. */
  function Submitted(title: string, description: string): (r: Option<CreateTicketRequest>)
    ensures r.Some? <==> NoErrors(FormErrorsOf(title, description))
    ensures r.Some? ==> r.value == TicketForm.Payload(title, description)
    ensures r.Some? ==> TitleMinTrimmed <= |r.value.title| <= TitleMax
  {
    if NoErrors(FormErrorsOf(title, description)) then Some(TicketForm.Payload(title, description)) else None
  }

  /**
   * A request this form emits is one the server's `TicketCreate` schema
   * accepts, and the plain form would have emitted the same request.
   */
  lemma SubmittedIsAccepted(title: string, description: string)
    requires Submitted(title, description).Some?
    ensures var r := Submitted(title, description).value;
      TicketSchemas.TicketCreateOk(TicketSchemas.TicketCreate(r.title, r.description, Some([])))
    ensures TicketForm.Submitted(title, description) == Submitted(title, description)
  {
  }

  /** The component's state. */
  class EnhancedForm {
    var title: string
    var description: string
    var errors: FormErrors
    var touchedTitle: bool
    var touchedDescription: bool

    /** A touched field's recorded error is the one its current text gets. */
    ghost predicate Valid()
      reads this
    {
      && (touchedTitle ==> errors.title == ValidateTitle(title))
      && (touchedDescription ==> errors.description == ValidateDescription(description))
    }

    constructor (initialTitle: Option<string>, initialDescription: Option<string>)
      ensures title == initialTitle.GetOr("") && description == initialDescription.GetOr("")
      ensures errors == FormErrors(None, None) && !touchedTitle && !touchedDescription
      ensures Valid()
    {
      title := initialTitle.GetOr("");
      description := initialDescription.GetOr("");
      errors := FormErrors(None, None);
      touchedTitle := false;
      touchedDescription := false;
    }

    /** `isFormValid`: no recorded error and a trimmed title of at least three characters. */
    predicate IsFormValid()
      reads this
    {
      errors.title.None? && errors.description.None? && |Text.Trim(title)| >= TitleMinTrimmed
    }

    /**
     * The effect that copies new initial values into the fields. It leaves
     * `errors` alone, so a touched field can show an error that belongs to
     * its previous text.
     */
    method SyncInitialValues(initialTitle: Option<string>, initialDescription: Option<string>)
      modifies this
      ensures title == initialTitle.GetOr("") && description == initialDescription.GetOr("")
      ensures errors == old(errors) && touchedTitle == old(touchedTitle) && touchedDescription == old(touchedDescription)
    {
      title := initialTitle.GetOr("");
      description := initialDescription.GetOr("");
    }

    /** `handleTitleChange`: a touched title is validated as it is typed. */
    method HandleTitleChange(value: string)
      modifies this
      ensures title == value && description == old(description)
      ensures touchedTitle == old(touchedTitle) && touchedDescription == old(touchedDescription)
      ensures errors.title == (if touchedTitle then ValidateTitle(value) else old(errors.title))
      ensures errors.description == old(errors.description)
      ensures old(Valid()) ==> Valid()
    {
      title := value;
      if touchedTitle {
        errors := errors.(title := ValidateTitle(value));
      }
    }

    /** `handleDescriptionChange`. */
    method HandleDescriptionChange(value: string)
      modifies this
      ensures description == value && title == old(title)
      ensures touchedTitle == old(touchedTitle) && touchedDescription == old(touchedDescription)
      ensures errors.description == (if touchedDescription then ValidateDescription(value) else old(errors.description))
      ensures errors.title == old(errors.title)
      ensures old(Valid()) ==> Valid()
    {
      description := value;
      if touchedDescription {
        errors := errors.(description := ValidateDescription(value));
      }
    }

    /** `handleTitleBlur`: the title becomes touched and is validated. */
    method HandleTitleBlur()
      modifies this
      ensures touchedTitle && touchedDescription == old(touchedDescription)
      ensures title == old(title) && description == old(description)
      ensures errors == old(errors).(title := ValidateTitle(title))
      ensures old(Valid()) ==> Valid()
    {
      touchedTitle := true;
      errors := errors.(title := ValidateTitle(title));
    }

    /** `handleDescriptionBlur`. */
    method HandleDescriptionBlur()
      modifies this
      ensures touchedDescription && touchedTitle == old(touchedTitle)
      ensures title == old(title) && description == old(description)
      ensures errors == old(errors).(description := ValidateDescription(description))
      ensures old(Valid()) ==> Valid()
    {
      touchedDescription := true;
      errors := errors.(description := ValidateDescription(description));
    }

    /**
     * `handleSubmit`: both fields become touched and are validated; the
     * request is emitted only when neither has an error, and then the form
     * shows as valid.
     */
    method HandleSubmit() returns (emitted: Option<CreateTicketRequest>)
      modifies this
      ensures title == old(title) && description == old(description)
      ensures touchedTitle && touchedDescription
      ensures errors == FormErrorsOf(title, description)
      ensures emitted == Submitted(title, description)
      ensures emitted.Some? <==> IsFormValid()
      ensures Valid()
    {
      touchedTitle := true;
      touchedDescription := true;
      errors := FormErrorsOf(title, description);
      if !NoErrors(errors) {
        return None;
      }
      var d := Text.Trim(description);
      emitted := Some(CreateTicketRequest(Text.Trim(title), if d == "" then None else Some(d), None));
    }
  }

  /**
   * Once both fields are touched, the form shows as valid exactly when a
   * submit would emit a request.
   */
  lemma TouchedFormValidExactlyWhenSubmittable(f: EnhancedForm)
    requires f.Valid() && f.touchedTitle && f.touchedDescription
    ensures f.IsFormValid() <==> Submitted(f.title, f.description).Some?
  {
  }
}
