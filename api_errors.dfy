/**
 * The response interceptor of the client's axios instance: it turns a
 * failed request into a title and a message, shows them in a toast unless
 * the request asked not to, and rejects with the error it was given.
 *
 * JavaScript truthiness is made explicit: an absent member, `null` and the
 * empty string are falsy; a non-empty string, any array and any object are
 * truthy.
 */
module ApiErrors {
  import opened Wrappers
  import Text

  /** One entry of a FastAPI validation-error list; the path elements are already rendered as strings. */
  datatype ValidationItem = ValidationItem(loc: Option<seq<string>>, msg: string)

  /** The `detail` member of an error body. */
  datatype Detail =
    | NoDetail                              // absent, null, or another falsy value
    | DetailString(text: string)
    | DetailArray(items: seq<ValidationItem>)
    | DetailOther                           // a truthy value that is neither a string nor an array

  /** The members of a response body the interceptor reads. */
  datatype ErrorBody = ErrorBody(detail: Detail, message: Option<string>, error: Option<string>)

  datatype Response = Response(status: nat, body: ErrorBody)

  /**
   * An axios error: the response if the server answered, whether a request
   * went out, the error code, and the request's `skipErrorToast` flag.
   */
  datatype AxiosError = AxiosError(response: Option<Response>, hasRequest: bool, code: Option<string>, skipErrorToast: bool)

  datatype Classification = Classification(title: string, message: string)

  /** A `toast.error(message, {description})` call. */
  datatype Toast = Toast(message: string, description: Option<string>)

  const DefaultMessage := "An unexpected error occurred"
  const DefaultTitle := "Error"
  const TimeoutCode := "ECONNABORTED"
  const NetworkTitle := "Network Error"
  const NetworkMessage := "Unable to connect to the server. Please check your internet connection."
  const TimeoutTitle := "Request Timeout"
  const TimeoutMessage := "The request took too long. Please try again."

  /**
   * The separator the source joins a location path with. It is the
   * three characters U+00E2 U+2020 U+2019 (the UTF-8 bytes of an arrow read
   * as Windows-1252) between two spaces, kept as written.
   */
  const LocSeparator := " \U{00E2}\U{2020}\U{2019} "

  predicate Truthy(s: Option<string>) {
    s.Some? && s.value != ""
  }

  predicate DetailTruthy(d: Detail) {
    match d
    case NoDetail => false
    case DetailString(s) => s != ""
    case _ => true
  }

  /** `err.loc?.join(sep) || 'Field'`. */
  function LocText(item: ValidationItem): (r: string)
    ensures r != ""
    ensures item.loc.Some? && Text.Join(item.loc.value, LocSeparator) != "" ==> r == Text.Join(item.loc.value, LocSeparator)
    ensures item.loc.None? || Text.Join(item.loc.value, LocSeparator) == "" ==> r == "Field"
  {
    if item.loc.Some? && Text.Join(item.loc.value, LocSeparator) != "" then Text.Join(item.loc.value, LocSeparator) else "Field"
  }

  function ItemText(item: ValidationItem): string {
    LocText(item) + ": " + item.msg
  }

  /** The validation list rendered entry by entry and joined with `", "`. */
  function ValidationMessage(items: seq<ValidationItem>): string {
    Text.Join(seq(|items|, i requires 0 <= i < |items| => ItemText(items[i])), ", ")
  }

  /** The message the body supplies: a string detail, else a detail list, else `message`, else `error`. */
  function BodyMessage(b: ErrorBody): (r: string)
    ensures b.detail.DetailString? && b.detail.text != "" ==> r == b.detail.text
    ensures b.detail.DetailArray? ==> r == ValidationMessage(b.detail.items)
    ensures b.detail.DetailOther? ==> r == DefaultMessage
    ensures !DetailTruthy(b.detail) && Truthy(b.message) ==> r == b.message.value
    ensures !DetailTruthy(b.detail) && !Truthy(b.message) && Truthy(b.error) ==> r == b.error.value
    ensures !DetailTruthy(b.detail) && !Truthy(b.message) && !Truthy(b.error) ==> r == DefaultMessage
  {
    if DetailTruthy(b.detail) then
      match b.detail
      case DetailString(s) => s
      case DetailArray(items) => ValidationMessage(items)
      case _ => DefaultMessage
    else if Truthy(b.message) then b.message.value
    else if Truthy(b.error) then b.error.value
    else DefaultMessage
  }

  /** The title a status code gets; codes without a case get `Error <code>`. */
  function StatusTitle(status: nat): string {
    match status
    case 400 => "Bad Request"
    case 401 => "Unauthorized"
    case 403 => "Forbidden"
    case 404 => "Not Found"
    case 409 => "Conflict"
    case 422 => "Validation Error"
    case 429 => "Too Many Requests"
    case 500 => "Server Error"
    case 503 => "Service Unavailable"
    case _ => "Error " + Text.DecimalString(status)
  }

  /** The message that replaces the body's for the statuses that have one. */
  function FixedMessage(status: nat): Option<string> {
    match status
    case 401 => Some("Please log in to continue")
    case 403 => Some("You do not have permission to perform this action")
    case 404 => Some("The requested resource was not found")
    case 429 => Some("Please slow down and try again later")
    case 500 => Some("An internal server error occurred. Please try again later.")
    case 503 => Some("The service is temporarily unavailable. Please try again later.")
    case _ => None
  }

  predicate IsNamedStatus(status: nat) {
    status in {400, 401, 403, 404, 409, 422, 429, 500, 503}
  }

  /** What the interceptor shows for an error, as a function of the error. */
  function Classify(e: AxiosError): Classification {
    match e.response
    case Some(resp) => Classification(StatusTitle(resp.status), FixedMessage(resp.status).GetOr(BodyMessage(resp.body)))
    case None =>
      if e.hasRequest then Classification(NetworkTitle, NetworkMessage)
      else if e.code == Some(TimeoutCode) then Classification(TimeoutTitle, TimeoutMessage)
      else Classification(DefaultTitle, DefaultMessage)
  }

  /** The message extraction of the handler: a string or list `detail`, else `message`, else `error`. */
  method MessageFromBody(data: ErrorBody) returns (message: string)
    ensures message == BodyMessage(data)
  {
    message := DefaultMessage;
    if DetailTruthy(data.detail) {
      match data.detail {
        case DetailString(s) =>
          message := s;
        case DetailArray(items) =>
          message := ValidationMessage(items);
        case _ =>
      }
    } else if Truthy(data.message) {
      message := data.message.value;
    } else if Truthy(data.error) {
      message := data.error.value;
    }
  }

  /** The `switch (status)` of the handler: sets the title, and the message where the status has its own. */
  method TitleForStatus(status: nat, bodyMessage: string) returns (title: string, message: string)
    ensures title == StatusTitle(status)
    ensures message == FixedMessage(status).GetOr(bodyMessage)
  {
    message := bodyMessage;
    match status {
      case 400 =>
        title := "Bad Request";
      case 401 =>
        title := "Unauthorized";
        message := "Please log in to continue";
      case 403 =>
        title := "Forbidden";
        message := "You do not have permission to perform this action";
      case 404 =>
        title := "Not Found";
        message := "The requested resource was not found";
      case 409 =>
        title := "Conflict";
      case 422 =>
        title := "Validation Error";
      case 429 =>
        title := "Too Many Requests";
        message := "Please slow down and try again later";
      case 500 =>
        title := "Server Error";
        message := "An internal server error occurred. Please try again later.";
      case 503 =>
        title := "Service Unavailable";
        message := "The service is temporarily unavailable. Please try again later.";
      case _ =>
        title := "Error " + Text.DecimalString(status);
    }
  }

  /**
   * The interceptor's error handler. It classifies the error, shows a toast
   * unless `skipErrorToast` is set (its description is the title unless the
   * title is the generic one), and rejects with the error unchanged.
   */
  method HandleResponseError(error: AxiosError) returns (title: string, message: string, toast: Option<Toast>, rejected: AxiosError)
    ensures Classification(title, message) == Classify(error)
    ensures toast.Some? <==> !error.skipErrorToast
    ensures toast.Some? ==> toast.value.message == message
    ensures toast.Some? ==> (toast.value.description.None? <==> title == DefaultTitle)
    ensures toast.Some? && toast.value.description.Some? ==> toast.value.description.value == title
    ensures rejected == error
  {
    message := DefaultMessage;
    title := DefaultTitle;

    if error.response.Some? {
      var status := error.response.value.status;
      var data := error.response.value.body;
      message := MessageFromBody(data);
      title, message := TitleForStatus(status, message);
    } else if error.hasRequest {
      title := NetworkTitle;
      message := NetworkMessage;
    } else if error.code == Some(TimeoutCode) {
      title := TimeoutTitle;
      message := TimeoutMessage;
    }

    if !error.skipErrorToast {
      toast := Some(Toast(message, if title != DefaultTitle then Some(title) else None));
    } else {
      toast := None;
    }

    rejected := error;
  }

  // ---------------------------------------------------------------------
  // Properties of the classification
  // ---------------------------------------------------------------------

  /** No status gets the generic title: every status title is either named or `Error ` followed by digits. */
  lemma StatusTitleIsNotDefault(status: nat)
    ensures StatusTitle(status) != DefaultTitle
  {
    if !IsNamedStatus(status) {
      assert |StatusTitle(status)| > |DefaultTitle|;
    }
  }

  /**
   * The generic title and message are shown exactly when there is neither a
   * response nor a request and the code is not the timeout code.
   */
  lemma DefaultTitleExactlyForOtherFailures(e: AxiosError)
    ensures Classify(e).title == DefaultTitle <==> e.response.None? && !e.hasRequest && e.code != Some(TimeoutCode)
    ensures Classify(e).title == DefaultTitle ==> Classify(e).message == DefaultMessage
  {
    if e.response.Some? {
      StatusTitleIsNotDefault(e.response.value.status);
    }
  }

  /** Statuses with a fixed message ignore the body entirely. */
  lemma FixedStatusesIgnoreBody(status: nat, b1: ErrorBody, b2: ErrorBody, e1: AxiosError, e2: AxiosError)
    requires status in {401, 403, 404, 429, 500, 503}
    requires e1.response == Some(Response(status, b1)) && e2.response == Some(Response(status, b2))
    ensures Classify(e1) == Classify(e2)
    ensures Classify(e1).message == FixedMessage(status).value
  {
    assert FixedMessage(status).Some?;
  }

  /** 400, 409 and 422 get a title but keep the message the body supplies. */
  lemma TitledStatusesKeepBodyMessage(status: nat, b: ErrorBody, e: AxiosError)
    requires status in {400, 409, 422}
    requires e.response == Some(Response(status, b))
    ensures Classify(e).message == BodyMessage(b)
    ensures Classify(e).title != DefaultTitle
  {
  }

  /** A status without a case is titled `Error <status>` and keeps the body's message. */
  lemma OtherStatusesNameTheCode(status: nat, b: ErrorBody, e: AxiosError)
    requires !IsNamedStatus(status)
    requires e.response == Some(Response(status, b))
    ensures Classify(e) == Classification("Error " + Text.DecimalString(status), BodyMessage(b))
  {
  }

  /** A title starts with `E` exactly when its status has no case of its own. */
  lemma StatusTitleShape(status: nat)
    ensures StatusTitle(status) != ""
    ensures !IsNamedStatus(status) <==> StatusTitle(status)[0] == 'E'
  {
    if !IsNamedStatus(status) {
      assert StatusTitle(status) == "Error " + Text.DecimalString(status);
    }
  }

  /** Different statuses get different titles, so the toast's description names the status. */
  lemma StatusTitleInjective(a: nat, b: nat)
    requires StatusTitle(a) == StatusTitle(b)
    ensures a == b
  {
    StatusTitleShape(a);
    StatusTitleShape(b);
    if !IsNamedStatus(a) {
      var da, db := Text.DecimalString(a), Text.DecimalString(b);
      assert da == StatusTitle(a)[6..] == StatusTitle(b)[6..] == db;
      Text.DecimalRoundTrip(a);
      Text.DecimalRoundTrip(b);
    }
  }

  /** Without a response, a request that went out is a network error whatever the code says. */
  lemma NetworkErrorBeforeTimeout(e: AxiosError, code: Option<string>)
    requires e.response.None? && e.hasRequest
    ensures Classify(e.(code := code)) == Classify(e) == Classification(NetworkTitle, NetworkMessage)
  {
  }

  /** The timeout title is shown exactly when there is neither a response nor a request and the code is the timeout code. */
  lemma TimeoutExactlyWithoutRequest(e: AxiosError)
    ensures Classify(e).title == TimeoutTitle <==> e.response.None? && !e.hasRequest && e.code == Some(TimeoutCode)
  {
    if e.response.Some? && !IsNamedStatus(e.response.value.status) {
      assert StatusTitle(e.response.value.status)[0] == 'E';
    }
  }

  /** A truthy `detail` decides the message: `message` and `error` are not consulted. */
  lemma DetailShadowsMessageAndError(b1: ErrorBody, b2: ErrorBody)
    requires b1.detail == b2.detail && DetailTruthy(b1.detail)
    ensures BodyMessage(b1) == BodyMessage(b2)
  {
  }

  /** An empty validation list is truthy and renders as the empty message. */
  lemma EmptyValidationListGivesEmptyMessage(b: ErrorBody)
    requires b.detail == DetailArray([])
    ensures BodyMessage(b) == ""
  {
  }

  /** A further validation entry is appended after `", "`. */
  lemma ValidationMessageSnoc(items: seq<ValidationItem>, item: ValidationItem)
    requires items != []
    ensures ValidationMessage(items + [item]) == ValidationMessage(items) + ", " + ItemText(item)
  {
    var parts := seq(|items|, i requires 0 <= i < |items| => ItemText(items[i]));
    var parts' := seq(|items + [item]|, i requires 0 <= i < |items + [item]| => ItemText((items + [item])[i]));
    assert parts' == parts + [ItemText(item)];
    JoinSnoc(parts, ItemText(item), ", ");
  }

  lemma {:induction false} JoinSnoc(parts: seq<string>, x: string, sep: string)
    requires parts != []
    ensures Text.Join(parts + [x], sep) == Text.Join(parts, sep) + sep + x
  {
    if |parts| == 1 {
      assert (parts + [x])[1..] == [x];
    } else {
      assert (parts + [x])[1..] == parts[1..] + [x];
      JoinSnoc(parts[1..], x, sep);
    }
  }

  /** A body-field entry renders its path with the separator, then its message. */
  lemma ValidationMessageOfOneEntry(field: string, msg: string)
    ensures ValidationMessage([ValidationItem(Some(["body", field]), msg)]) == "body" + LocSeparator + field + ": " + msg
  {
    assert Text.Join(["body", field], LocSeparator) == "body" + LocSeparator + field by {
      assert ["body", field][1..] == [field];
    }
  }
}
