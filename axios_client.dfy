/**
 * The HTTP client's error handling and header helper: how a failed
 * request becomes a system message for the chat, or an error carrying the
 * request it came from. The requests themselves are not part of this
 * model.
 */
module AxiosClient {
  import opened Wrappers
  import opened Strings
  import opened OrderedDict

  /** The message type a chat renders as a system notice. */
  const System := "SYSTEM"
  const NetworkErrorText := "Network error or DNS issue"
  const RequestFailedText := "Request failed"

  /** `error.response.data`: the server's body, which may carry a message. */
  datatype ErrorData = ErrorData(message: Option<string>)

  /** `error.response`: the status line and body of a non-2xx answer. */
  datatype ErrorResponse = ErrorResponse(status: nat, statusText: string, data: Option<ErrorData>)

  /** What the HTTP library rejects with: a response, or else whether a request went out, and a stack trace. */
  datatype HttpError = HttpError(response: Option<ErrorResponse>, request: bool, stack: Option<string>)

  /** `AxiosClientError`; `stack == None` stands for the trace the runtime gives every new error. */
  datatype ClientError = ClientError(message: string, requestMethod: string, requestUri: string, stack: Option<string>)

  /** `new AxiosClientError({errorMessage, requestMethod, requestUri, stack})`: the stack is replaced only when one is supplied. */
  function NewClientError(errorMessage: string, verb: string, uri: string, stack: Option<string>): (e: ClientError)
    ensures e.message == errorMessage && e.requestMethod == verb && e.requestUri == uri
    ensures Truthy(stack) <==> e.stack.Some?
    ensures e.stack.Some? ==> e.stack == stack
  {
    ClientError(errorMessage, verb, uri, if Truthy(stack) then stack else None)
  }

  /** `{messageType, message}`. */
  datatype SystemMessage = SystemMessage(messageType: string, message: string)

  /** What `handleError` does: return a value (`None` for `undefined`) or throw. */
  datatype Outcome = Returned(value: Option<SystemMessage>) | Thrown(error: ClientError)

  /** `errorData.message || error.response.statusText`, a missing body read as `{}`. */
  function Detail(response: ErrorResponse): (d: string)
    ensures response.data.Some? && Truthy(response.data.value.message) ==> d == response.data.value.message.value
    ensures response.data.None? || !Truthy(response.data.value.message) ==> d == response.statusText
  {
    if response.data.Some? && Truthy(response.data.value.message) then response.data.value.message.value
    else response.statusText
  }

  /** `${status}: ${method} - ${uri} ${detail}`. */
  function StatusMessage(response: ErrorResponse, verb: string, uri: string): string {
    NatToString(response.status) + ": " + verb + " - " + uri + " " + Detail(response)
  }

  /** `handleError(error, verb, uri, noOp)`. */
  function HandleError(error: HttpError, verb: string, uri: string, noOp: bool): (r: Outcome)
    ensures noOp ==> r == Returned(None)
    ensures r.Returned? <==> noOp || error.response.Some?
    ensures !noOp && error.response.Some? ==>
      r.value == Some(SystemMessage(System, StatusMessage(error.response.value, verb, uri)))
    ensures r.Thrown? ==> r.error.requestMethod == verb && r.error.requestUri == uri
    ensures r.Thrown? ==> (r.error.message == NetworkErrorText <==> error.request)
    ensures r.Thrown? ==> r.error.message in {NetworkErrorText, RequestFailedText}
  {
    if noOp then Returned(None)
    else if error.response.Some? then
      Returned(Some(SystemMessage(System, StatusMessage(error.response.value, verb, uri))))
    else if error.request then
      Thrown(NewClientError(NetworkErrorText, verb, uri, error.stack))
    else
      Thrown(NewClientError(RequestFailedText, verb, uri, error.stack))
  }

  /** The longest run of decimal digits at the start of `s`. */
  function LeadingDigits(s: string): (d: string)
    ensures |d| <= |s| && d == s[..|d|]
  {
    if s == [] || !IsDigit(s[0]) then [] else [s[0]] + LeadingDigits(s[1..])
  }

  lemma {:induction false} LeadingDigitsOf(digits: string, rest: string)
    requires forall i :: 0 <= i < |digits| ==> IsDigit(digits[i])
    requires rest == [] || !IsDigit(rest[0])
    ensures LeadingDigits(digits + rest) == digits
  {
    if digits == [] {
      assert digits + rest == rest;
    } else {
      assert (digits + rest)[1..] == digits[1..] + rest;
      LeadingDigitsOf(digits[1..], rest);
    }
  }

  /**
   * The status and the reason can be read back from the message: its
   * leading digits are the status code, followed by ": ", and it ends with
   * the detail.
   */
  lemma {:induction false} StatusMessageParts(response: ErrorResponse, verb: string, uri: string)
    ensures var m := StatusMessage(response, verb, uri);
      && DigitsValue(LeadingDigits(m)) == response.status
      && |LeadingDigits(m)| + 2 <= |m| && m[|LeadingDigits(m)|..|LeadingDigits(m)| + 2] == ": "
      && m[|m| - |Detail(response)|..] == Detail(response)
  {
    var code := NatToString(response.status);
    var tail := ": " + verb + " - " + uri + " " + Detail(response);
    var m := StatusMessage(response, verb, uri);
    assert m == code + tail;
    LeadingDigitsOf(code, tail);
    NatToStringRoundTrip(response.status);
  }

  /** The client's own check: a 404 with a body message becomes the system message "404: GET - https://example.com Resource not found". */
  lemma NotFoundMessage()
    ensures HandleError(HttpError(Some(ErrorResponse(404, "Not Found", Some(ErrorData(Some("Resource not found"))))), false, None),
                        "GET", "https://example.com", false)
         == Returned(Some(SystemMessage("SYSTEM", "404" + ": " + "GET" + " - " + "https://example.com" + " " + "Resource not found")))
  {
    StatusDigits();
  }

  lemma StatusDigits()
    ensures NatToString(404) == "404"
  {
    assert NatToString(40) == "40" by {
      assert NatToString(4) == "4";
    }
  }

  /** Request options: the headers, one entry per name. */
  datatype RequestOptions = RequestOptions(headers: Dict<string>)

  /** `setAuthHeader(token)`. */
  function SetAuthHeader(token: string): RequestOptions {
    RequestOptions([("Authorization", "Bearer " + token)])
  }

  /** The options carry exactly one header, `Authorization`, and the token is what follows `Bearer `. */
  lemma AuthHeaderCarriesToken(token: string)
    ensures Keys(SetAuthHeader(token).headers) == ["Authorization"]
    ensures Get(SetAuthHeader(token).headers, "Authorization").Some?
    ensures var v := Get(SetAuthHeader(token).headers, "Authorization").value;
      StartsWith(v, "Bearer ") && v[|"Bearer "|..] == token
  {
    var h := SetAuthHeader(token).headers;
    assert Keys(h) == ["Authorization"];
  }
}
