/** The central error normaliser of `src/services/errorHandler.ts`: any
    thrown value is classified into one of five codes with a message, a
    context and the original stack, and each code has a fixed user-facing
    message except validation errors, whose own message is shown.
    `handleError` returns the normalised error unchanged after logging it,
    so the model has one function for both; logging is left out. */
module ErrorHandler {
  import opened Wrappers
  import JsString

  datatype ErrorCode = NetworkError | AuthError | LocationError | ValidationError | UnknownError

  /** The string value of each `ErrorCodes` member. */
  function CodeName(c: ErrorCode): string
  {
    match c
    case NetworkError => "NETWORK_ERROR"
    case AuthError => "AUTH_ERROR"
    case LocationError => "LOCATION_ERROR"
    case ValidationError => "VALIDATION_ERROR"
    case UnknownError => "UNKNOWN_ERROR"
  }

  /** The `code` property of a thrown value: absent, a number (the
      geolocation library's codes) or a string (the client's tags). */
  datatype CodeField = NoCode | NumCode(n: real) | StrCode(s: string)

  /** An HTTP response attached to a failed request: its status and the
      `message` field of its body, when the body has one. */
  datatype ResponseInfo = ResponseInfo(status: int, dataMessage: Option<string>)

  /** The properties of an arbitrary thrown value that the normaliser reads. */
  datatype RawError = RawError(
    response: Option<ResponseInfo>,
    message: Option<string>,
    code: CodeField,
    name: Option<string>,
    url: Option<string>,
    stack: Option<string>)

  datatype ErrorContext =
    | HttpContext(status: int, url: Option<string>, origin: Option<string>)
    | CodeContext(code: CodeField, origin: Option<string>)
    | LabelContext(origin: Option<string>)

  datatype AppError = AppError(code: ErrorCode, message: string, context: ErrorContext, stack: Option<string>)

  const DefaultNetworkMessage := "Network error occurred"
  const DefaultAuthMessage := "Authentication error"
  const DefaultValidationMessage := "Validation failed"
  const DefaultUnknownMessage := "An unexpected error occurred"

  /** `error.message?.includes('auth') || error.code === 'auth/'`: the test
      is case-sensitive and reads the message, not the code, for 'auth'. */
  predicate MentionsAuth(e: RawError)
  {
    (e.message.Some? && JsString.Contains(e.message.value, "auth")) || e.code == StrCode("auth/")
  }

  /** The number a relational comparison converts the code to: a number
      stays itself, a string goes through `Number(...)`, and an absent code
      is NaN, which compares false with everything. */
  function CodeNumber(c: CodeField): Option<real>
  {
    match c
    case NoCode => None
    case NumCode(n) => Some(n)
    case StrCode(s) =>
      var v := JsString.StringToNumber(s);
      if v.Some? then Some(v.value as real) else None
  }

  /** `error.code >= 1 && error.code <= 5`: the comparison converts, so a
      numeral string such as "3" passes as well as the number 3. */
  predicate HasGeolocationCode(e: RawError)
  {
    var v := CodeNumber(e.code);
    v.Some? && 1.0 <= v.value <= 5.0
  }

  predicate IsValidationError(e: RawError)
  {
    e.name == Some("ValidationError")
  }

  /** The message for each geolocation error code. The `switch` compares
      strictly, so only the numbers 1, 2 and 3 get their own message; the
      string "1" falls to the default. */
  function LocationErrorMessage(code: CodeField): string
  {
    if code == NumCode(1.0) then "Location access denied"
    else if code == NumCode(2.0) then "Location position unavailable"
    else if code == NumCode(3.0) then "Location request timeout"
    else "Location error occurred"
  }

  /** `normalizeError`: the first matching rule decides the code. An error
      carrying a response is a network error, then an auth mention, then a
      geolocation code, then a validation name; everything else is unknown.
      The message is never empty and the stack is carried over. */
  function NormalizeError(e: RawError, context: Option<string>): (r: AppError)
    ensures r.code == NetworkError <==> e.response.Some?
    ensures r.code == AuthError <==> e.response.None? && MentionsAuth(e)
    ensures r.code == LocationError <==> e.response.None? && !MentionsAuth(e) && HasGeolocationCode(e)
    ensures r.code == ValidationError <==>
      e.response.None? && !MentionsAuth(e) && !HasGeolocationCode(e) && IsValidationError(e)
    ensures r.code == NetworkError ==>
      r.message == JsString.Or(e.response.value.dataMessage, JsString.Or(e.message, DefaultNetworkMessage))
      && r.context == HttpContext(e.response.value.status, e.url, context)
    ensures r.code == AuthError ==> r.message == JsString.Or(e.message, DefaultAuthMessage)
    ensures r.code == LocationError ==>
      r.message == LocationErrorMessage(e.code) && r.context == CodeContext(e.code, context)
    ensures r.code == ValidationError ==> r.message == JsString.Or(e.message, DefaultValidationMessage)
    ensures r.code in {AuthError, ValidationError, UnknownError} ==> r.context == LabelContext(context)
    ensures r.code == UnknownError ==> r.message == JsString.Or(e.message, DefaultUnknownMessage)
    ensures r.message != []
    ensures r.stack == e.stack
  {
    if e.response.Some? then
      AppError(NetworkError,
               JsString.Or(e.response.value.dataMessage, JsString.Or(e.message, DefaultNetworkMessage)),
               HttpContext(e.response.value.status, e.url, context), e.stack)
    else if MentionsAuth(e) then
      AppError(AuthError, JsString.Or(e.message, DefaultAuthMessage), LabelContext(context), e.stack)
    else if HasGeolocationCode(e) then
      AppError(LocationError, LocationErrorMessage(e.code), CodeContext(e.code, context), e.stack)
    else if IsValidationError(e) then
      AppError(ValidationError, JsString.Or(e.message, DefaultValidationMessage), LabelContext(context), e.stack)
    else
      AppError(UnknownError, JsString.Or(e.message, DefaultUnknownMessage), LabelContext(context), e.stack)
  }

  /** A plain `{ code, message }` object with a string code and no response,
      as the API client builds them. Unless the message mentions 'auth', the
      code is literally 'auth/' or the code reads as a number from 1 to 5,
      the code plays no part: the result is UNKNOWN_ERROR with the message
      kept verbatim. */
  lemma StringCodeIsIgnored(code: string, message: string, context: Option<string>)
    requires message != [] && !JsString.Contains(message, "auth") && code != "auth/"
    requires !HasGeolocationCode(RawError(None, None, StrCode(code), None, None, None))
    ensures var r := NormalizeError(RawError(None, Some(message), StrCode(code), None, None, None), context);
      r.code == UnknownError && r.message == message
  {
  }

  /** A code that starts with a letter never reads as a number, so the
      location rule cannot take it. */
  lemma LetterCodeIsNoGeolocationCode(e: RawError)
    requires e.code.StrCode? && e.code.s != [] && 'A' <= e.code.s[0] <= 'Z'
    ensures !HasGeolocationCode(e)
  {
    JsString.LetterLedIsNaN(e.code.s);
  }

  /** The numerals "1" to "5" as a string code pass the location rule, yet
      the strict `switch` gives them the generic message, and the context
      keeps the string. */
  lemma NumeralCodeIsLocationError(n: nat, message: string, context: Option<string>)
    requires 1 <= n <= 5 && !JsString.Contains(message, "auth")
    ensures var code := StrCode(JsString.NatToString(n));
      var r := NormalizeError(RawError(None, Some(message), code, None, None, None), context);
      r.code == LocationError && r.message == "Location error occurred"
      && r.context == CodeContext(code, context)
  {
    JsString.NumeralToNumber(n);
    var s := JsString.NatToString(n);
    assert s != "auth/" by {
      assert JsString.IsDigit(s[0]);
    }
  }

  /** `getUserFriendlyMessage`. */
  function UserFriendlyMessage(e: AppError): (r: string)
    ensures e.code == ValidationError ==> r == e.message
    ensures r != [] || (e.code == ValidationError && e.message == [])
  {
    match e.code
    case NetworkError => "Please check your internet connection and try again."
    case AuthError => "Please log in again to continue."
    case LocationError => "Unable to access your location. Please check your location settings."
    case ValidationError => e.message
    case UnknownError => "Something went wrong. Please try again."
  }

  /** Outside validation errors the user-facing message depends on the code
      alone: the error's own message, context and stack are never shown. */
  lemma UserMessageDependsOnlyOnCode(a: AppError, b: AppError)
    requires a.code == b.code && a.code != ValidationError
    ensures UserFriendlyMessage(a) == UserFriendlyMessage(b)
  {
  }

  /** ... and distinct codes give distinct fixed messages. */
  lemma UserMessageDistinguishesCodes(a: AppError, b: AppError)
    requires a.code != ValidationError && b.code != ValidationError && a.code != b.code
    ensures UserFriendlyMessage(a) != UserFriendlyMessage(b)
  {
  }

  /** Codes 1, 2 and 3 get their own messages; 4, 5 and any other value in
      range share the generic one. */
  lemma LocationMessagesDistinct()
    ensures LocationErrorMessage(NumCode(1.0)) != LocationErrorMessage(NumCode(2.0))
    ensures LocationErrorMessage(NumCode(2.0)) != LocationErrorMessage(NumCode(3.0))
    ensures LocationErrorMessage(NumCode(1.0)) != LocationErrorMessage(NumCode(3.0))
    ensures LocationErrorMessage(NumCode(4.0)) == LocationErrorMessage(NumCode(5.0)) == "Location error occurred"
  {
  }
}
