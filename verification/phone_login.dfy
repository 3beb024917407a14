/** The phone-number entry screen (`src/screens/auth/PhoneLoginScreen.tsx`):
    its own phone-number check, which is not the one the validation
    utilities apply, and what pressing "Send Verification Code" does to the
    screen and to the authentication slice. */
module PhoneLogin {
  import opened Wrappers
  import JsString
  import V = Validation
  import EH = ErrorHandler
  import Auth = AuthSlice

  /** `/^\+?[1-9]\d{1,14}$/` on the text with white space removed: an
      optional '+', a non-zero digit, then one to fourteen digits. */
  predicate IsValidPhoneNumber(phone: string)
  {
    var cleaned := JsString.RemoveWhitespace(phone);
    var digits := if |cleaned| > 0 && cleaned[0] == '+' then cleaned[1..] else cleaned;
    2 <= |digits| <= 15 && '1' <= digits[0] <= '9' && JsString.AllDigits(digits)
  }

  /** The two checks disagree both ways. This screen takes a number with
      no '+' that the validator turns away for its missing country code. */
  lemma PlusIsOptionalHere(d: string)
    requires JsString.AllDigits(d) && 2 <= |d| <= 15 && d[0] != '0'
    ensures IsValidPhoneNumber(d)
    ensures V.ValidatePhoneNumber(d) == V.Invalid(V.MissingCountryCode)
  {
    DigitsHaveNoWhitespace(d);
  }

  /** It refuses a leading zero after the '+' that the validator takes. */
  lemma LeadingZeroRefusedHere(d: string)
    requires JsString.AllDigits(d) && 7 <= |d| <= 15 && d[0] == '0'
    ensures !IsValidPhoneNumber("+" + d)
    ensures V.ValidatePhoneNumber("+" + d).isValid
  {
    PlusDigitsHaveNoWhitespace(d);
  }

  /** And it takes two to six digits after the '+', which the validator
      calls malformed. */
  lemma ShortNumbersAcceptedHere(d: string)
    requires JsString.AllDigits(d) && 2 <= |d| <= 6 && d[0] != '0'
    ensures IsValidPhoneNumber("+" + d)
    ensures V.ValidatePhoneNumber("+" + d) == V.Invalid(V.BadPhoneFormat)
  {
    PlusDigitsHaveNoWhitespace(d);
  }

  /** Where both apply to a '+' number they agree: seven to fifteen
      digits, the first not zero, pass both. */
  lemma ChecksAgreeOnFullNumbers(phone: string)
    requires var c := JsString.RemoveWhitespace(phone); |c| >= 8 && c[0] == '+' && c[1] != '0'
    ensures IsValidPhoneNumber(phone) <==> V.ValidatePhoneNumber(phone).isValid
  {
  }

  lemma DigitsHaveNoWhitespace(d: string)
    requires JsString.AllDigits(d)
    ensures JsString.RemoveWhitespace(d) == d
  {
    assert JsString.HasNoWhitespace(d);
  }

  lemma PlusDigitsHaveNoWhitespace(d: string)
    requires JsString.AllDigits(d)
    ensures JsString.RemoveWhitespace("+" + d) == "+" + d
    ensures ("+" + d)[1..] == d
  {
    var s := "+" + d;
    forall i | 0 <= i < |s|
      ensures !JsString.IsWhitespace(s[i])
    {
      if i > 0 {
        assert s[i] == d[i - 1];
      }
    }
    assert JsString.HasNoWhitespace(s);
  }

  /** White space alone removes to nothing. */
  lemma {:induction false} BlankRemovesToEmpty(s: string)
    requires JsString.IsBlank(s)
    ensures JsString.RemoveWhitespace(s) == []
    decreases |s|
  {
    if s != [] {
      assert JsString.IsBlank(s[1..]) by {
        forall i | 0 <= i < |s| - 1
          ensures JsString.IsWhitespace(s[1..][i])
        {
          assert s[1..][i] == s[i + 1];
        }
      }
      BlankRemovesToEmpty(s[1..]);
    }
  }

  /** The send button is disabled while the field is blank or a request
      is in flight. */
  predicate SendDisabled(phone: string, loading: bool)
  {
    JsString.Trim(phone) == [] || loading
  }

  /** A number the screen accepts never sits in a blank field, so a press
      that gets past the check came from an enabled button unless a
      request was in flight. */
  lemma AcceptedNumberEnablesButton(phone: string)
    requires IsValidPhoneNumber(phone)
    ensures !SendDisabled(phone, false)
  {
    if JsString.IsBlank(phone) {
      BlankRemovesToEmpty(phone);
    }
  }

  const InvalidTitle := "Invalid Phone"
  const InvalidMessage := "Please enter a valid phone number including the country code (e.g., +15551234567)."
  const ErrorTitle := "Error"

  datatype ScreenEffect =
    | ShowAlert(title: string, message: string)
    | RequestCode(phone: string)
    | NavigateToVerification(phone: string)

  datatype Press = Press(effects: seq<ScreenEffect>, auth: Auth.AuthState)

  /** The action `sendVerificationCode` settles with, given the server's
      answer; it is what the slice's thunk settles with for any session
      payload. */
  function SendCodeAction(answer: Result<Unit, EH.RawError>): (a: Auth.AuthAction)
    ensures answer.Success? ==> forall resp :: a == Auth.SettleThunk(Auth.SendVerificationCode, Success(resp))
    ensures answer.Failure? ==> a == Auth.SettleThunk(Auth.SendVerificationCode, Failure(answer.error))
  {
    match answer
    case Success(_) => Auth.SendCodeFulfilled
    case Failure(e) => Auth.Rejected(Auth.SendVerificationCode, Auth.HandleAsyncError(e))
  }

  /** `handleSendCode`. A number the screen refuses raises the fixed alert
      and nothing else happens. Otherwise the code is requested for the
      number exactly as typed, white space and all; on success the screen
      moves on with that same text, on failure it alerts the thunk's
      message. The slice goes through pending and then the settled action. */
  function HandleSendCode(s: Auth.AuthState, phone: string, answer: Result<Unit, EH.RawError>): (p: Press)
    ensures !IsValidPhoneNumber(phone) ==> p == Press([ShowAlert(InvalidTitle, InvalidMessage)], s)
    ensures IsValidPhoneNumber(phone) ==>
      && |p.effects| == 2 && p.effects[0] == RequestCode(phone)
      && p.auth == Auth.Reduce(Auth.Reduce(s, Auth.Pending(Auth.SendVerificationCode)), SendCodeAction(answer))
      && !p.auth.loading
    ensures IsValidPhoneNumber(phone) && answer.Success? ==>
      p.effects[1] == NavigateToVerification(phone) && p.auth.error.None?
    ensures IsValidPhoneNumber(phone) && answer.Failure? ==>
      p.effects[1] == ShowAlert(ErrorTitle, Auth.HandleAsyncError(answer.error))
      && p.auth.error == Some(Auth.HandleAsyncError(answer.error))
    ensures p.auth.isAuthenticated == s.isAuthenticated && p.auth.token == s.token && p.auth.user == s.user
  {
    if !IsValidPhoneNumber(phone) then Press([ShowAlert(InvalidTitle, InvalidMessage)], s)
    else
      var after := Auth.Reduce(Auth.Reduce(s, Auth.Pending(Auth.SendVerificationCode)), SendCodeAction(answer));
      match answer
      case Success(_) => Press([RequestCode(phone), NavigateToVerification(phone)], after)
      case Failure(e) => Press([RequestCode(phone), ShowAlert(ErrorTitle, Auth.HandleAsyncError(e))], after)
  }

  /** On mount the slice's error is cleared, and nothing else changes. */
  function OnMount(s: Auth.AuthState): (r: Auth.AuthState)
    ensures r == s.(error := None)
  {
    Auth.Reduce(s, Auth.ClearError)
  }
}
