/** The client's error-to-message classification (client/src/utils/errorHandler.js):
    `handleApiError` picks the text of the error toast, which the model returns. */
module ErrorMessages {
  import opened Common

  /** One item of a 400 body's `errors` array; a field the item lacks is `None`. */
  datatype FieldError = FieldError(msg: Option<string>, message: Option<string>)

  /** A response body: its `message`, and its `errors` when that is an array. */
  datatype ResponseData = ResponseData(message: Option<string>, errors: Option<seq<FieldError>>)

  /** An axios error: one with a response (status, body, `retry-after` header), one
      whose request got no response, or one that failed before sending. */
  datatype ApiError =
    | ResponseError(status: int, data: ResponseData, retryAfter: Option<string>)
    | NoResponse
    | SetupError(message: Option<string>)

  const BadInputText := "Please check your input and try again."
  const LoginText := "Please log in to continue."
  const ForbiddenText := "You do not have permission to perform this action."
  const NotFoundText := "The requested resource was not found."
  const RateLimitedText := "Too many requests. Please wait a moment and try again."
  const ServerText := "Server error. Please try again later."
  const UnavailableText := "Service temporarily unavailable. Please try again later."
  const UnexpectedText := "An unexpected error occurred. Please try again."
  const NetworkText := "Network error. Please check your connection and try again."

  /** A string value that JavaScript treats as true: present and not empty. */
  predicate Truthy(s: Option<string>) {
    s.Some? && s.value != ""
  }

  /** `a || b` on two optional strings, with the fallback text. */
  function OrElse(s: Option<string>, fallback: string): (r: string)
    ensures Truthy(s) ==> r == s.value
    ensures !Truthy(s) ==> r == fallback
  {
    if Truthy(s) then s.value else fallback
  }

  /** `err.msg || err.message`, as `join` renders it: a missing value becomes "". */
  function ItemText(e: FieldError): (r: string)
    ensures Truthy(e.msg) ==> r == e.msg.value
    ensures !Truthy(e.msg) && e.message.Some? ==> r == e.message.value
    ensures !Truthy(e.msg) && e.message.None? ==> r == ""
  {
    if Truthy(e.msg) then e.msg.value else if e.message.Some? then e.message.value else ""
  }

  function Join(parts: seq<string>, sep: string): (r: string)
    ensures parts == [] ==> r == ""
    ensures |parts| == 1 ==> r == parts[0]
    ensures |parts| >= 1 ==> |r| >= |parts[0]|
  {
    if parts == [] then "" else if |parts| == 1 then parts[0] else parts[0] + sep + Join(parts[1..], sep)
  }

  function ItemTexts(items: seq<FieldError>): (r: seq<string>)
    ensures |r| == |items|
    ensures forall i :: 0 <= i < |items| ==> r[i] == ItemText(items[i])
  {
    if items == [] then [] else [ItemText(items[0])] + ItemTexts(items[1..])
  }

  /** The text for a response with the given status. */
  function ResponseText(status: int, data: ResponseData, retryAfter: Option<string>): string {
    if status == 400 then
      if data.errors.Some? then Join(ItemTexts(data.errors.value), ", ") else OrElse(data.message, BadInputText)
    else if status == 401 then LoginText
    else if status == 403 then ForbiddenText
    else if status == 404 then NotFoundText
    else if status == 429 then
      if Truthy(retryAfter) then "Too many requests. Please wait " + retryAfter.value + " seconds and try again."
      else RateLimitedText
    else if status == 500 then ServerText
    else if status in {502, 503, 504} then UnavailableText
    else OrElse(data.message, UnexpectedText)
  }

  /** `handleApiError(error, customMessage)`: the text of the toast it shows. */
  function HandleApiError(error: ApiError, customMessage: Option<string>): (text: string)
    ensures Truthy(customMessage) ==> text == customMessage.value
    ensures !Truthy(customMessage) && error.NoResponse? ==> text == NetworkText
    ensures !Truthy(customMessage) && error.SetupError? ==> text == OrElse(error.message, UnexpectedText)
  {
    if Truthy(customMessage) then customMessage.value
    else match error
      case ResponseError(status, data, retryAfter) => ResponseText(status, data, retryAfter)
      case NoResponse => NetworkText
      case SetupError(message) => OrElse(message, UnexpectedText)
  }

  /** Which text each status gets when no custom message is given: the body counts
      only for 400 and for statuses outside the list, the header only for 429, and
      502, 503 and 504 share one text. */
  lemma StatusTexts(status: int, data: ResponseData, retryAfter: Option<string>, data': ResponseData, retryAfter': Option<string>)
    ensures var text := HandleApiError(ResponseError(status, data, retryAfter), None);
      && (status in {401, 403, 404, 500, 502, 503, 504} ==> text == HandleApiError(ResponseError(status, data', retryAfter'), None))
      && (status in {502, 503, 504} ==> text == UnavailableText)
      && (status == 404 ==> text == NotFoundText)
      && (status == 429 && Truthy(retryAfter) ==> text == "Too many requests. Please wait " + retryAfter.value + " seconds and try again.")
      && (status == 429 && !Truthy(retryAfter) ==> text == RateLimitedText)
      && (status == 400 && data.errors.None? ==> text == OrElse(data.message, BadInputText))
      && (status !in {400, 401, 403, 404, 429, 500, 502, 503, 504} ==> text == OrElse(data.message, UnexpectedText))
  {
  }

  lemma {:induction false} JoinTwo(a: string, b: string, sep: string)
    ensures Join([a, b], sep) == a + sep + b
  {
    assert [a, b][1..] == [b];
  }

  /** A 400 carrying an `errors` array shows its items' `msg` texts joined by ", ";
      for two items `[{msg: a}, {msg: b}]` that is "a, b". */
  lemma {:induction false} ValidationErrorsJoined(a: string, b: string, data: ResponseData)
    requires a != ""
    ensures HandleApiError(ResponseError(400, ResponseData(data.message, Some([FieldError(Some(a), None), FieldError(Some(b), None)])), None), None)
      == a + ", " + b
  {
    var items := [FieldError(Some(a), None), FieldError(Some(b), None)];
    var texts := ItemTexts(items);
    assert texts == [a, b];
    JoinTwo(a, b, ", ");
  }

  // ---------------------------------------------------------------------------
  // The server's replies as the client shows them

  /** The body and status the server sends for a reply of its routes: a validation
      failure is a 400 whose `errors` items carry `msg`, a refusal a status with
      `message`. A success has no error. */
  function AsError(r: Reply): (e: Option<ApiError>)
    ensures r.Ok? <==> e.None?
  {
    match r
    case Ok => None
    case Error(status, message) => Some(ResponseError(status, ResponseData(Some(message), None), None))
    case Invalid(errors) => Some(ResponseError(400, ResponseData(None, Some(MsgItems(errors))), None))
  }

  function MsgItems(msgs: seq<string>): (items: seq<FieldError>)
    ensures |items| == |msgs|
    ensures forall i :: 0 <= i < |msgs| ==> items[i] == FieldError(Some(msgs[i]), None)
  {
    if msgs == [] then [] else [FieldError(Some(msgs[0]), None)] + MsgItems(msgs[1..])
  }

  lemma {:induction false} ItemTextsOfMsgItems(msgs: seq<string>)
    ensures ItemTexts(MsgItems(msgs)) == msgs
  {
    var texts := ItemTexts(MsgItems(msgs));
    assert |texts| == |msgs|;
    forall i | 0 <= i < |msgs| ensures texts[i] == msgs[i] {
      assert MsgItems(msgs)[i] == FieldError(Some(msgs[i]), None);
    }
  }

  /** Without a custom message, a validation failure shows the server's messages in
      order, joined by ", "; a 400 refusal shows its message; a 404 or a 500 shows the
      client's own text whatever the server said. */
  lemma {:induction false} ServerRepliesShown(errors: seq<string>, message: string)
    requires message != ""
    ensures HandleApiError(AsError(Invalid(errors)).value, None) == Join(errors, ", ")
    ensures HandleApiError(AsError(Error(400, message)).value, None) == message
    ensures HandleApiError(AsError(Error(404, message)).value, None) == NotFoundText
    ensures HandleApiError(AsError(Error(500, message)).value, None) == ServerText
  {
    ItemTextsOfMsgItems(errors);
  }
}
