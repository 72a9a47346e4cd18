/** The contact form of the portfolio page (`app/folio/Contact/Contact.tsx`):
    its validation rules, and the component state `formData`, `formErrors`,
    `formStatus` and `statusMessage` that the submit, change and blur
    handlers overwrite. */
module Contact {
  import opened Text
  import opened EmailPattern
  import opened Fields
  import opened Results

  const NameRequired := "Name is required"
  const EmailRequired := "Email is required"
  const EmailInvalid := "Please enter a valid email address"
  const MessageRequired := "Message is required"
  const MessageTooShort := "Message must be at least 10 characters long"
  const CorrectErrors := "Please correct the errors below and try again."
  const SendFailed := "There was an error sending your message. Please try again."
  const SendSucceeded := "Thank you for your message! I'll get back to you soon."

  /** The shortest message accepted, counted after trimming. */
  const MinMessageLength := 10

  datatype Status = Idle | Submitting | Success | Error

  /** How the `fetch` of the form body ended: a response with `ok` set, a
      response without it, or an exception. */
  datatype SendOutcome = ResponseOk | ResponseNotOk | Thrown

  /** The error shown under the name input after a submit. */
  function NameError(name: string): (r: string)
    ensures r == "" || r == NameRequired
  {
    if |Trim(name)| == 0 then NameRequired else ""
  }

  /** The error shown under the e-mail input after a submit. The pattern is
      applied to the value as typed, not to the trimmed value. */
  function EmailError(email: string): (r: string)
    ensures r == "" || r == EmailRequired || r == EmailInvalid
  {
    if |Trim(email)| == 0 then EmailRequired
    else if !IsEmailAddress(email) then EmailInvalid
    else ""
  }

  /** The error shown under the message input after a submit. */
  function MessageError(message: string): (r: string)
    ensures r == "" || r == MessageRequired || r == MessageTooShort
  {
    var trimmed := Trim(message);
    if |trimmed| == 0 then MessageRequired
    else if Utf16Length(trimmed) < MinMessageLength then MessageTooShort
    else ""
  }

  /** The `errors` record that `validateForm` builds for `data`. */
  function FieldErrors(data: FormFields): (r: FormFields)
    ensures WellFormedErrors(r)
  {
    FormFields(NameError(data.name), EmailError(data.email), MessageError(data.message))
  }

  /** Every error string is empty or one of the messages its field can show. */
  predicate WellFormedErrors(e: FormFields) {
    && (e.name == "" || e.name == NameRequired)
    && (e.email == "" || e.email == EmailRequired || e.email == EmailInvalid)
    && (e.message == "" || e.message == MessageRequired || e.message == MessageTooShort)
  }

  /** The status banner agrees with the status: empty while idle or
      submitting, the thank-you text on success, a non-empty reason on error. */
  predicate BannerAgrees(status: Status, banner: string) {
    match status
    case Idle => banner == ""
    case Submitting => banner == ""
    case Success => banner == SendSucceeded
    case Error => banner == CorrectErrors || banner == SendFailed
  }

  /** The position of a field in the form, which decides focus order. */
  function Rank(f: Field): nat {
    match f
    case Name => 0
    case Email => 1
    case Message => 2
  }

  /** The field the error effect focuses: the first one, in form order,
      whose error is non-empty; none when every error is empty. */
  function FirstError(errors: FormFields): (r: Option<Field>)
    ensures r == None <==> errors == Empty
    ensures r.Some? ==> errors.Get(r.value) != ""
    ensures r.Some? ==> forall g :: Rank(g) < Rank(r.value) ==> errors.Get(g) == ""
  {
    if errors.name != "" then Some(Name)
    else if errors.email != "" then Some(Email)
    else if errors.message != "" then Some(Message)
    else None
  }

  /** The name check fails exactly on a blank name. */
  lemma NameErrorSpec(name: string)
    ensures NameError(name) == (if AllSpace(name) then NameRequired else "")
  {
    TrimEmptyIff(name);
  }

  /** The three outcomes of the e-mail check: required when blank, accepted
      exactly when the pattern matches the value as typed, invalid otherwise. */
  lemma EmailErrorSpec(email: string)
    ensures EmailError(email) == EmailRequired <==> AllSpace(email)
    ensures EmailError(email) == "" <==> MatchesEmailRegex(email)
    ensures EmailError(email) == EmailInvalid <==> !AllSpace(email) && !MatchesEmailRegex(email)
  {
    TrimEmptyIff(email);
    ScannerMatchesPattern(email);
    if MatchesEmailRegex(email) {
      MatchHasNoSpace(email);
      assert !IsSpace(email[0]);
    }
  }

  /** An address with whitespace around it is refused, although a trimmed
      copy of it may be a valid address. */
  lemma EmailWithSurroundingSpaceRefused(email: string)
    requires email != [] && (IsSpace(email[0]) || IsSpace(email[|email| - 1]))
    ensures EmailError(email) != ""
  {
    EmailErrorSpec(email);
    if MatchesEmailRegex(email) {
      MatchHasNoSpace(email);
    }
  }

  /** The three outcomes of the message check, by the UTF-16 length of the trimmed text. */
  lemma MessageErrorSpec(message: string)
    ensures MessageError(message) == MessageRequired <==> AllSpace(message)
    ensures MessageError(message) == MessageTooShort <==> !AllSpace(message) && Utf16Length(Trim(message)) < MinMessageLength
    ensures MessageError(message) == "" <==> Utf16Length(Trim(message)) >= MinMessageLength
  {
    TrimEmptyIff(message);
  }

  /** Five characters outside the Basic Multilingual Plane are ten UTF-16
      code units, so they make a long enough message. */
  lemma AstralCharactersCountTwice()
    ensures MessageError("\U{1F600}\U{1F600}\U{1F600}\U{1F600}\U{1F600}") == ""
  {
    var message := "\U{1F600}\U{1F600}\U{1F600}\U{1F600}\U{1F600}";
    TrimNoOp(message);
    assert Utf16Length(message) == 2 + Utf16Length(message[1..]);
  }

  /** A record passes validation exactly when each of its fields does. */
  predicate IsValidData(data: FormFields) {
    FieldErrors(data) == Empty
  }

  /** The fields that pass validation, stated through the meaning of each
      rule: a non-blank name, an e-mail matched by the pattern, and a message
      of at least ten UTF-16 code units once trimmed. */
  lemma ValidDataSpec(data: FormFields)
    ensures IsValidData(data) <==>
      !AllSpace(data.name) && MatchesEmailRegex(data.email) && Utf16Length(Trim(data.message)) >= MinMessageLength
  {
    NameErrorSpec(data.name);
    EmailErrorSpec(data.email);
    MessageErrorSpec(data.message);
  }

  /** After a submit that fails validation the effect has a field to focus. */
  lemma FailedValidationHasFocus(data: FormFields)
    requires !IsValidData(data)
    ensures FirstError(FieldErrors(data)).Some?
  {
  }

  /** The body of `validateForm`: starts from an empty error record and a
      set `isValid` flag, and applies the rules one after the other, each
      failing rule writing its message and clearing the flag. */
  method CheckFields(data: FormFields) returns (errors: FormFields, isValid: bool)
    ensures errors == FieldErrors(data)
    ensures isValid <==> errors == Empty
  {
    errors := Empty;
    isValid := true;
    if |Trim(data.name)| == 0 {
      errors := errors.(name := NameRequired);
      isValid := false;
    }
    if |Trim(data.email)| == 0 {
      errors := errors.(email := EmailRequired);
      isValid := false;
    } else if !IsEmailAddress(data.email) {
      errors := errors.(email := EmailInvalid);
      isValid := false;
    }
    assert errors.name == NameError(data.name) && errors.email == EmailError(data.email);
    assert isValid <==> errors.name == "" && errors.email == "";
    var message := Trim(data.message);
    if |message| == 0 {
      errors := errors.(message := MessageRequired);
      isValid := false;
    } else if Utf16Length(message) < MinMessageLength {
      errors := errors.(message := MessageTooShort);
      isValid := false;
    }
    assert errors.message == MessageError(data.message);
  }

  /** The component's state. */
  class ContactForm {
    var formData: FormFields
    var formErrors: FormFields
    var formStatus: Status
    var statusMessage: string

    /** The invariant every handler keeps. */
    ghost predicate Valid()
      reads this
    {
      WellFormedErrors(formErrors) && BannerAgrees(formStatus, statusMessage)
    }

    /** The initial `useState` values. */
    constructor ()
      ensures Valid()
      ensures formData == Empty && formErrors == Empty
      ensures formStatus == Idle && statusMessage == ""
    {
      formData := Empty;
      formErrors := Empty;
      formStatus := Idle;
      statusMessage := "";
    }

    /** `validateForm`: checks `formData`, stores the error record in
        `formErrors` (and changes nothing else) and reports whether every
        rule passed. */
    method ValidateForm() returns (isValid: bool)
      modifies this`formErrors
      ensures formErrors == FieldErrors(formData)
      ensures isValid <==> formErrors == Empty
    {
      var errors;
      errors, isValid := CheckFields(formData);
      formErrors := errors;
    }

    /** `handleSubmit` up to the `await fetch(...)`: marks the form as
        submitting, clears the banner and the errors, and validates. On
        failure the form shows the correction banner and nothing is sent;
        `sending` says whether the request goes out. */
    method BeginSubmit() returns (sending: bool)
      requires Valid()
      modifies this
      ensures Valid()
      ensures formData == old(formData)
      ensures formErrors == FieldErrors(formData)
      ensures sending <==> IsValidData(formData)
      ensures sending ==> formStatus == Submitting && statusMessage == ""
      ensures !sending ==> formStatus == Error && statusMessage == CorrectErrors
    {
      formStatus := Submitting;
      statusMessage := "";
      formErrors := Empty;
      sending := ValidateForm();
      if !sending {
        formStatus := Error;
        statusMessage := CorrectErrors;
      }
    }

    /** `handleSubmit` after the `await`: an ok response clears the form and
        thanks the sender; a response that is not ok and a thrown exception
        both keep what was typed and show the retry banner. */
    method ReceiveResponse(outcome: SendOutcome)
      requires Valid()
      modifies this
      ensures Valid()
      ensures outcome == ResponseOk ==>
        formData == Empty && formErrors == Empty && formStatus == Success && statusMessage == SendSucceeded
      ensures outcome != ResponseOk ==>
        formData == old(formData) && formErrors == old(formErrors)
        && formStatus == Error && statusMessage == SendFailed
    {
      match outcome
      case ResponseOk =>
        formData := Empty;
        formErrors := Empty;
        formStatus := Success;
        statusMessage := SendSucceeded;
      case ResponseNotOk =>
        formStatus := Error;
        statusMessage := SendFailed;
      case Thrown =>
        formStatus := Error;
        statusMessage := SendFailed;
    }

    /** `handleSubmit` as a whole, with nothing typed while the request is
        in flight. */
    method HandleSubmit(outcome: SendOutcome)
      requires Valid()
      modifies this
      ensures Valid()
      ensures !IsValidData(old(formData)) ==>
        formData == old(formData) && formErrors == FieldErrors(formData)
        && formStatus == Error && statusMessage == CorrectErrors
      ensures IsValidData(old(formData)) && outcome == ResponseOk ==>
        formData == Empty && formErrors == Empty && formStatus == Success && statusMessage == SendSucceeded
      ensures IsValidData(old(formData)) && outcome != ResponseOk ==>
        formData == old(formData) && formErrors == Empty && formStatus == Error && statusMessage == SendFailed
    {
      var sending := BeginSubmit();
      if sending {
        ReceiveResponse(outcome);
      }
    }

    /** `handleChange`: the typed value replaces the field's value, the
        field's own error is cleared, and an error banner gives way to the
        idle state; any other status is left as it is. */
    method HandleChange(f: Field, value: string)
      requires Valid()
      modifies this
      ensures Valid()
      ensures formData == old(formData).Set(f, value)
      ensures formErrors == old(formErrors).Set(f, "")
      ensures old(formStatus) == Error ==> formStatus == Idle && statusMessage == ""
      ensures old(formStatus) != Error ==> formStatus == old(formStatus) && statusMessage == old(statusMessage)
    {
      formData := formData.Set(f, value);
      if formErrors.Get(f) != "" {
        formErrors := formErrors.Set(f, "");
      }
      if formStatus == Error {
        formStatus := Idle;
        statusMessage := "";
      }
    }

    /** `handleBlur` with the input's current `value`: a non-blank e-mail the
        pattern refuses gets the invalid-address error, a non-blank message
        shorter than ten UTF-16 code units once trimmed gets the too-short error, and
        nothing else changes. Leaving a field never clears an error. */
    method HandleBlur(f: Field, value: string)
      requires Valid()
      modifies this
      ensures Valid()
      ensures formData == old(formData)
      ensures formStatus == old(formStatus) && statusMessage == old(statusMessage)
      ensures formErrors.name == old(formErrors).name
      ensures forall g :: old(formErrors).Get(g) != "" ==> formErrors.Get(g) != ""
      ensures f == Email && !AllSpace(value) && !MatchesEmailRegex(value) ==>
        formErrors == old(formErrors).Set(Email, EmailInvalid)
      ensures f == Message && !AllSpace(value) && Utf16Length(Trim(value)) < MinMessageLength ==>
        formErrors == old(formErrors).Set(Message, MessageTooShort)
      ensures (|| AllSpace(value) || f == Name || (f == Email && MatchesEmailRegex(value))
               || (f == Message && Utf16Length(Trim(value)) >= MinMessageLength))
        ==> formErrors == old(formErrors)
    {
      TrimEmptyIff(value);
      ScannerMatchesPattern(value);
      if |Trim(value)| != 0 {
        if f == Email && !IsEmailAddress(value) {
          formErrors := formErrors.(email := EmailInvalid);
        } else if f == Message && Utf16Length(Trim(value)) < MinMessageLength {
          formErrors := formErrors.(message := MessageTooShort);
        }
      }
    }

    /** The field the error effect moves focus to: only while the status is
        `error`, the first field with an error. */
    function FocusTarget(): (r: Option<Field>)
      reads this
      ensures r.Some? ==> formStatus == Error && formErrors.Get(r.value) != ""
      ensures formStatus == Error && formErrors != Empty ==> r.Some?
    {
      if formStatus == Error then FirstError(formErrors) else None
    }
  }
}
