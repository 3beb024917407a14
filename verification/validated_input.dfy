/** The text handler of `src/components/common/ValidatedInput.tsx`: every
    keystroke's text is sanitised, the sanitised text is validated by the
    field's kind, the error shown is set from the verdict, and the
    sanitised text, not the typed one, is passed on to the owner. */
module ValidatedInput {
  import opened Wrappers
  import JsString
  import V = Validation
  import Security

  datatype ValidationType = Phone | DisplayName | Code | Bio

  /** The props the handler reads; `required` defaults to false. */
  datatype Props = Props(fieldLabel: Option<string>, validationType: Option<ValidationType>, required: bool)

  /** What one change does: the error state it sets and the text handed
      to `onChangeText`. */
  datatype Change = Change(error: Option<string>, forwarded: string)

  /** The validator each kind of field uses. */
  function Validate(kind: ValidationType, text: string): (r: V.ValidationResult)
    ensures V.WellFormed(r)
    ensures kind == Phone ==> r == V.ValidatePhoneNumber(text)
    ensures kind == DisplayName ==> r == V.ValidateDisplayName(text)
    ensures kind == Code ==> r == V.ValidateVerificationCode(text)
    ensures kind == Bio ==> r == V.ValidateBio(text)
  {
    match kind
    case Phone => V.ValidatePhoneNumber(text)
    case DisplayName => V.ValidateDisplayName(text)
    case Code => V.ValidateVerificationCode(text)
    case Bio => V.ValidateBio(text)
  }

  function RequiredMessage(fieldLabel: Option<string>): string
  {
    JsString.Or(fieldLabel, "Field") + " is required"
  }

  /** `handleTextChange`. A required field left empty after sanitising
      reports the required message; an empty optional field, or a field
      with no kind, reports nothing; otherwise the kind's validator
      decides, on the sanitised text. */
  function HandleTextChange(p: Props, text: string): (c: Change)
    ensures c.forwarded == Security.SanitizeInput(text)
    ensures p.required && c.forwarded == [] ==> c.error == Some(RequiredMessage(p.fieldLabel))
    ensures !p.required && c.forwarded == [] ==> c.error.None?
    ensures p.validationType.None? && c.forwarded != [] ==> c.error.None?
    ensures c.forwarded != [] && p.validationType.Some? ==>
      c.error == Validate(p.validationType.value, c.forwarded).message
    ensures c.error.Some? <==>
      (p.required && c.forwarded == [])
      || (c.forwarded != [] && p.validationType.Some? && !Validate(p.validationType.value, c.forwarded).isValid)
  {
    var sanitized := Security.SanitizeInput(text);
    var validation :=
      if p.required && JsString.Trim(sanitized) == [] then V.Invalid(RequiredMessage(p.fieldLabel))
      else if sanitized != [] && p.validationType.Some? then Validate(p.validationType.value, sanitized)
      else V.Valid;
    Change(if validation.isValid then None else validation.message, sanitized)
  }

  /** White space alone is sanitised away entirely. */
  lemma BlankSanitisesToEmpty(text: string)
    requires JsString.IsBlank(text)
    ensures Security.SanitizeInput(text) == []
  {
    assert Security.NoAngles(text);
    assert Security.NoLetterJ(text);
    Security.NoLetterJNoProtocol(text);
    Security.StripProtocolIdentity(text);
  }

  /** Typing only white space into a required field shows the required
      message, named after the label when there is one. */
  lemma BlankRequiredFieldReportsRequired(p: Props, text: string)
    requires p.required && JsString.IsBlank(text)
    ensures HandleTextChange(p, text) == Change(Some(RequiredMessage(p.fieldLabel)), [])
  {
    BlankSanitisesToEmpty(text);
  }

  /** Surrounding white space never reaches the validator: typing a code
      with spaces around it is judged as the bare code. */
  lemma SurroundingSpaceIsIgnored(p: Props, text: string)
    requires Security.NoAngles(text) && Security.NoLetterJ(text)
    requires text != [] && !JsString.IsWhitespace(text[0]) && !JsString.IsWhitespace(text[|text| - 1])
    ensures HandleTextChange(p, " " + text + " ") == HandleTextChange(p, text)
  {
    SanitizePadded(text);
  }

  lemma PaddedIsPlain(text: string)
    requires Security.NoAngles(text) && Security.NoLetterJ(text)
    ensures Security.NoAngles(" " + text + " ") && Security.NoLetterJ(" " + text + " ")
  {
    var padded := " " + text + " ";
    forall i | 0 <= i < |padded|
      ensures !Security.IsAngle(padded[i]) && padded[i] != 'j' && padded[i] != 'J'
    {
      if 0 < i < |padded| - 1 {
        assert padded[i] == text[i - 1];
      }
    }
  }

  lemma SanitizePadded(text: string)
    requires Security.NoAngles(text) && Security.NoLetterJ(text)
    requires text != [] && !JsString.IsWhitespace(text[0]) && !JsString.IsWhitespace(text[|text| - 1])
    ensures Security.SanitizeInput(" " + text + " ") == text == Security.SanitizeInput(text)
  {
    var padded := " " + text + " ";
    PaddedIsPlain(text);
    Security.NoLetterJNoProtocol(padded);
    Security.StripProtocolIdentity(padded);
    TrimPadded(text);
    Security.NoLetterJNoProtocol(text);
    Security.SanitizeInputFixesCleanText(text);
  }

  lemma TrimPadded(text: string)
    requires text != [] && !JsString.IsWhitespace(text[0]) && !JsString.IsWhitespace(text[|text| - 1])
    ensures JsString.Trim(" " + text + " ") == text
  {
    var padded := " " + text + " ";
    var t := padded[1..];
    assert t == text + " ";
    assert padded[0] == ' ' && padded[1] == text[0];
    assert JsString.LeadingWhitespace(padded) == 1;
    assert t[..|t| - 1] == text;
    assert JsString.EndBeforeTrailingWhitespace(text) == |text|;
    assert JsString.EndBeforeTrailingWhitespace(t) == |text|;
    assert t[..|text|] == text;
  }

  /** Sending the forwarded text through the handler again forwards the
      same text, provided the protocol did not reassemble in the first
      pass. */
  lemma ForwardedTextIsStable(p: Props, text: string)
    requires !Security.HasProtocol(Security.SanitizeInput(text))
    ensures HandleTextChange(p, HandleTextChange(p, text).forwarded) == HandleTextChange(p, text)
  {
    var c := HandleTextChange(p, text);
    var f := c.forwarded;
    assert f == Security.SanitizeInput(text);
    Security.SanitizeInputFixesCleanText(f);
    SameSanitisedSameChange(p, f, text);
  }

  /** The handler sees the typed text only through its sanitised form. */
  lemma SameSanitisedSameChange(p: Props, a: string, b: string)
    requires Security.SanitizeInput(a) == Security.SanitizeInput(b)
    ensures HandleTextChange(p, a) == HandleTextChange(p, b)
  {
  }
}
