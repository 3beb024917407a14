/** The string validators of `src/utils/validation.ts`. Each answers with
    a verdict and, exactly when the verdict is negative, a message. */
module Validation {
  import opened Wrappers
  import JsString
  import Security

  datatype ValidationResult = ValidationResult(isValid: bool, message: Option<string>)

  const Valid := ValidationResult(true, None)

  function Invalid(message: string): ValidationResult
  {
    ValidationResult(false, Some(message))
  }

  /** A valid result never carries a message; an invalid one always does. */
  predicate WellFormed(r: ValidationResult)
  {
    r.isValid <==> r.message.None?
  }

  const MissingCountryCode := "Phone number must include country code (+)"
  const BadPhoneFormat := "Invalid phone number format"

  /** `^\d{7,15}$`: seven to fifteen ASCII digits and nothing else. */
  predicate IsSubscriberNumber(s: string)
  {
    7 <= |s| <= 15 && JsString.AllDigits(s)
  }

  /** `validatePhoneNumber`: white space removed; then a leading '+' is
      required, and after it seven to fifteen digits, a leading zero
      included. */
  function ValidatePhoneNumber(phone: string): (r: ValidationResult)
    ensures WellFormed(r)
    ensures var cleaned := JsString.RemoveWhitespace(phone);
      && (r.isValid <==> |cleaned| > 0 && cleaned[0] == '+' && IsSubscriberNumber(cleaned[1..]))
      && (cleaned == [] || cleaned[0] != '+' ==> r.message == Some(MissingCountryCode))
      && (|cleaned| > 0 && cleaned[0] == '+' && !r.isValid ==> r.message == Some(BadPhoneFormat))
  {
    var cleaned := JsString.RemoveWhitespace(phone);
    if !(|cleaned| > 0 && cleaned[0] == '+') then Invalid(MissingCountryCode)
    else if !IsSubscriberNumber(cleaned[1..]) then Invalid(BadPhoneFormat)
    else Valid
  }

  /** White space does not matter to the phone check. */
  lemma PhoneIgnoresWhitespace(a: string, b: string)
    requires JsString.RemoveWhitespace(a) == JsString.RemoveWhitespace(b)
    ensures ValidatePhoneNumber(a) == ValidatePhoneNumber(b)
  {
  }

  const NameRequired := "Display name is required"
  const NameTooShort := "Display name must be at least 2 characters"
  const NameTooLong := "Display name must be less than 50 characters"
  const NameBadCharacters := "Display name contains invalid characters"

  /** The class `[a-zA-Z0-9\s\-_.]`. */
  predicate IsNameChar(c: char)
  {
    ('a' <= c <= 'z') || ('A' <= c <= 'Z') || JsString.IsDigit(c) || JsString.IsWhitespace(c)
    || c == '-' || c == '_' || c == '.'
  }

  predicate AllNameChars(s: string)
  {
    forall i | 0 <= i < |s| :: IsNameChar(s[i])
  }

  /** `validateDisplayName`: the first failing check decides the message,
      in the order blank, too short, too long, bad characters. Lengths are
      those of the name as given, not trimmed. */
  function ValidateDisplayName(name: string): (r: ValidationResult)
    ensures WellFormed(r)
    ensures r.isValid <==> !JsString.IsBlank(name) && 2 <= |name| <= 50 && AllNameChars(name)
    ensures JsString.IsBlank(name) ==> r.message == Some(NameRequired)
    ensures !JsString.IsBlank(name) && |name| < 2 ==> r.message == Some(NameTooShort)
    ensures !JsString.IsBlank(name) && |name| > 50 ==> r.message == Some(NameTooLong)
    ensures !JsString.IsBlank(name) && 2 <= |name| <= 50 && !AllNameChars(name) ==>
      r.message == Some(NameBadCharacters)
  {
    if JsString.Trim(name) == [] then Invalid(NameRequired)
    else if |name| < 2 then Invalid(NameTooShort)
    else if |name| > 50 then Invalid(NameTooLong)
    else if !AllNameChars(name) then Invalid(NameBadCharacters)
    else Valid
  }

  /** The length bound is inclusive, and counts the white space the blank
      check trims: a space and one letter is a valid name. */
  lemma DisplayNameLengthIsUntrimmed(c: char)
    requires ('a' <= c <= 'z') || ('A' <= c <= 'Z')
    ensures ValidateDisplayName([' ', c]).isValid
    ensures ValidateDisplayName(seq(50, i => c)).isValid
    ensures ValidateDisplayName(seq(51, i => c)) == Invalid(NameTooLong)
  {
    assert !JsString.IsWhitespace(c);
    assert [' ', c][1] == c;
    assert seq(50, i => c)[0] == c;
    assert seq(51, i => c)[0] == c;
  }

  /** A valid name holds no bracket and no colon, so the sanitiser can
      only trim it: sanitising a valid name gives its trim. */
  lemma ValidNameSanitisesToItsTrim(name: string)
    requires ValidateDisplayName(name).isValid
    ensures Security.SanitizeInput(name) == JsString.Trim(name)
  {
    assert Security.NoAngles(name);
    Security.NoColonNoProtocol(name);
    Security.StripProtocolIdentity(name);
  }

  const BadCode := "Verification code must be 6 digits"

  /** `validateVerificationCode`: exactly six ASCII digits. */
  function ValidateVerificationCode(code: string): (r: ValidationResult)
    ensures WellFormed(r)
    ensures r.isValid <==> |code| == 6 && JsString.AllDigits(code)
    ensures !r.isValid ==> r.message == Some(BadCode)
  {
    if |code| == 6 && JsString.AllDigits(code) then Valid else Invalid(BadCode)
  }

  /** A valid code is six digits, which the sanitiser leaves as they are. */
  lemma ValidCodeIsSanitised(code: string)
    requires ValidateVerificationCode(code).isValid
    ensures Security.SanitizeInput(code) == code
  {
    assert Security.NoAngles(code);
    assert Security.NoLetterJ(code);
    Security.NoLetterJNoProtocol(code);
    Security.SanitizeInputFixesCleanText(code);
  }

  const BioTooLong := "Bio must be less than 200 characters"

  /** `validateBio`: at most two hundred characters. */
  function ValidateBio(bio: string): (r: ValidationResult)
    ensures WellFormed(r)
    ensures r.isValid <==> |bio| <= 200
    ensures !r.isValid ==> r.message == Some(BioTooLong)
  {
    if |bio| > 200 then Invalid(BioTooLong) else Valid
  }

  /** A valid bio stays valid when shortened. */
  lemma BioPrefixClosed(bio: string, n: nat)
    requires n <= |bio| && ValidateBio(bio).isValid
    ensures ValidateBio(bio[..n]).isValid
  {
  }
}
