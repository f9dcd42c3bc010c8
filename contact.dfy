/**
  The contact-form controller of Contact.tsx: per-field validation, and the edit / blur / submit
  state machine over the five pieces of component state.
*/
module ContactForm {
  import opened Wrappers
  import opened Text
  import opened EmailPattern

  /** The keys of the `ContactForm` interface. */
  datatype Field = Name | Email | Message

  /** `Object.keys(formData)`, in the order the initial state declares them. */
  const Fields: seq<Field> := [Name, Email, Message]

  /** A record with one entry per form field (`formData` holds strings, `touched` booleans). */
  datatype PerField<T> = PerField(name: T, email: T, message: T) {

    function Get(f: Field): T {
      match f
      case Name => name
      case Email => email
      case Message => message
    }

    /** `{...prev, [f]: v}`: entry `f` becomes `v`, every other entry is kept. */
    function Set(f: Field, v: T): (r: PerField<T>)
      ensures r.Get(f) == v
      ensures forall g :: g != f ==> r.Get(g) == Get(g)
    {
      match f
      case Name => this.(name := v)
      case Email => this.(email := v)
      case Message => this.(message := v)
    }
  }

  function Uniform<T>(v: T): PerField<T> {
    PerField(v, v, v)
  }

  datatype SubmitStatus = Idle | Success | Error

  /** What the `fetch` call to the API produced: a response with `ok`, one without, or a thrown failure. */
  datatype FetchOutcome = ResponseOk | ResponseNotOk | RequestFailed

  const NameMissing := "Please enter your name"
  const NameTooShort := "Name must be at least 2 characters"
  const EmailMissing := "Please enter your email address"
  const EmailInvalid := "Please enter a valid email address"
  const MessageMissing := "Please enter your message"
  const MessageTooShort := "Message must be at least 10 characters"

  /**
    `validateField`: the empty string when the value is acceptable, otherwise the message to show.
    Name and message are judged on the trimmed value; the e-mail pattern is tested on the raw value.
  */
  function ValidateField(f: Field, value: string): string
  {
    match f
    case Name =>
      if Trim(value) == [] then NameMissing
      else if Utf16Length(Trim(value)) < 2 then NameTooShort
      else ""
    case Email =>
      if Trim(value) == [] then EmailMissing
      else if !IsValidEmail(value) then EmailInvalid
      else ""
    case Message =>
      if Trim(value) == [] then MessageMissing
      else if Utf16Length(Trim(value)) < 10 then MessageTooShort
      else ""
  }

  /**
    What `validateField`'s verdicts mean: each field has an acceptance condition and, when it
    fails, the message says whether the value was blank or merely too short / malformed.
  */
  lemma ValidateFieldVerdicts(f: Field, value: string)
    ensures f == Name ==> (ValidateField(f, value) == "" <==> Utf16Length(Trim(value)) >= 2)
    ensures f == Name && AllSpace(value) ==> ValidateField(f, value) == NameMissing
    ensures f == Name && Utf16Length(Trim(value)) == 1 ==> ValidateField(f, value) == NameTooShort
    ensures f == Email ==> (ValidateField(f, value) == "" <==> Matches(value))
    ensures f == Email && AllSpace(value) ==> ValidateField(f, value) == EmailMissing
    ensures f == Email && !AllSpace(value) && !Matches(value) ==> ValidateField(f, value) == EmailInvalid
    ensures f == Message ==> (ValidateField(f, value) == "" <==> Utf16Length(Trim(value)) >= 10)
    ensures f == Message && AllSpace(value) ==> ValidateField(f, value) == MessageMissing
    ensures f == Message && 0 < Utf16Length(Trim(value)) < 10 ==> ValidateField(f, value) == MessageTooShort
  {
    ValidEmailIffMatches(value);
    Utf16LengthBounds(Trim(value));
  }

  /** `validateField` applied to each field of a form. */
  function Verdicts(form: PerField<string>): PerField<string> {
    PerField(ValidateField(Name, form.name), ValidateField(Email, form.email), ValidateField(Message, form.message))
  }

  lemma VerdictsAreValidateField(form: PerField<string>, g: Field)
    ensures Verdicts(form).Get(g) == ValidateField(g, form.Get(g))
  {
  }

  /** The position of a field in `Fields`. */
  function FieldIndex(g: Field): (i: nat)
    ensures i < |Fields| && Fields[i] == g
  {
    match g
    case Name => 0
    case Email => 1
    case Message => 2
  }

  /**
    `errs` is the `errors` object for a set of verdicts: it has a key exactly for each failing
    field, holding that field's message.
  */
  predicate ErrorsFor(errs: map<Field, string>, verdicts: PerField<string>) {
    && (forall g :: g in errs <==> verdicts.Get(g) != "")
    && (forall g :: g in errs ==> errs[g] == verdicts.Get(g))
  }

  /** The verdicts leave exactly one possible `errors` object. */
  lemma ErrorsForUnique(a: map<Field, string>, b: map<Field, string>, verdicts: PerField<string>)
    requires ErrorsFor(a, verdicts) && ErrorsFor(b, verdicts)
    ensures a == b
  {
    assert forall g :: g in a <==> g in b;
  }

  /**
    The `forEach` at the start of `handleSubmit`: the new `errors` object holds a key exactly for
    the fields whose value fails validation, with that field's message.
  */
  method CollectErrors(form: PerField<string>) returns (newErrors: map<Field, string>)
    ensures ErrorsFor(newErrors, Verdicts(form))
  {
    ghost var verdicts := Verdicts(form);
    newErrors := map[];
    for k := 0 to |Fields|
      invariant forall g :: g in newErrors <==> FieldIndex(g) < k && verdicts.Get(g) != ""
      invariant forall g :: g in newErrors ==> newErrors[g] == verdicts.Get(g)
    {
      var fieldName := Fields[k];
      assert FieldIndex(fieldName) == k;
      var error := ValidateField(fieldName, form.Get(fieldName));
      VerdictsAreValidateField(form, fieldName);
      if error != "" {
        newErrors := newErrors[fieldName := error];
      }
    }
  }

  /** The `errors` object built on submit is empty exactly when every field passes validation. */
  lemma NoErrorsIffAllValid(errs: map<Field, string>, verdicts: PerField<string>)
    requires ErrorsFor(errs, verdicts)
    ensures |errs| == 0 <==> verdicts == Uniform("")
  {
    if |errs| == 0 {
      assert errs == map[];
      assert Name !in errs && Email !in errs && Message !in errs;
    } else {
      var g :| g in errs;
      assert verdicts.Get(g) != "";
    }
  }

  /** The state of one mounted contact form. */
  class ContactController {
    var formData: PerField<string>
    /** `Partial<ContactForm>`: a field without a key has no error (`undefined`). */
    var errors: map<Field, string>
    var touched: PerField<bool>
    var isSubmitting: bool
    var submitStatus: SubmitStatus

    constructor ()
      ensures formData == Uniform("") && errors == map[] && touched == Uniform(false)
      ensures !isSubmitting && submitStatus == Idle
    {
      formData := Uniform("");
      errors := map[];
      touched := Uniform(false);
      isSubmitting := false;
      submitStatus := Idle;
    }

    /** `errors[f]`, with the empty string for a missing key (both are falsy). */
    function ErrorOf(f: Field): string
      reads this
    {
      if f in errors then errors[f] else ""
    }

    /** The inline error under field `f` is rendered. */
    predicate ShowsError(f: Field)
      reads this
    {
      touched.Get(f) && ErrorOf(f) != ""
    }

    /** The submit button's `disabled` attribute. */
    predicate SubmitDisabled()
      reads this
    {
      isSubmitting
    }

    /** `handleInputChange`: store the new value, and clear the field's error only if it had one. */
    method HandleInputChange(f: Field, value: string)
      modifies this
      ensures formData == old(formData).Set(f, value)
      ensures errors == if old(ErrorOf(f)) != "" then old(errors)[f := ""] else old(errors)
      ensures !ShowsError(f)
      ensures forall g :: g != f ==> ErrorOf(g) == old(ErrorOf(g))
      ensures touched == old(touched)
      ensures isSubmitting == old(isSubmitting) && submitStatus == old(submitStatus)
    {
      formData := formData.Set(f, value);
      if ErrorOf(f) != "" {
        errors := errors[f := ""];
      }
    }

    /** `handleBlur`: mark the field touched and store the verdict on the value the element holds. */
    method HandleBlur(f: Field, value: string)
      modifies this
      ensures touched == old(touched).Set(f, true)
      ensures errors == old(errors)[f := ValidateField(f, value)]
      ensures ShowsError(f) <==> ValidateField(f, value) != ""
      ensures forall g :: g != f ==> ErrorOf(g) == old(ErrorOf(g)) && touched.Get(g) == old(touched.Get(g))
      ensures formData == old(formData)
      ensures isSubmitting == old(isSubmitting) && submitStatus == old(submitStatus)
    {
      touched := touched.Set(f, true);
      var error := ValidateField(f, value);
      errors := errors[f := error];
    }

    /**
      The synchronous part of `handleSubmit`: re-validate every field, mark all touched, and either
      stop (some field failed) or enter the submitting state and issue one request carrying the form.
    */
    method HandleSubmit() returns (request: Option<PerField<string>>)
      modifies this
      ensures formData == old(formData)
      ensures touched == Uniform(true)
      ensures ErrorsFor(errors, Verdicts(formData))
      ensures forall g :: ShowsError(g) <==> Verdicts(formData).Get(g) != ""
      ensures request.Some? <==> Verdicts(formData) == Uniform("")
      ensures request.Some? ==> request.value == formData && isSubmitting && submitStatus == Idle
      ensures request.None? ==> isSubmitting == old(isSubmitting) && submitStatus == old(submitStatus)
    {
      ghost var form := formData;
      ghost var verdicts := Verdicts(formData);
      var newErrors := CollectErrors(formData);
      NoErrorsIffAllValid(newErrors, verdicts);
      errors := newErrors;
      touched := Uniform(true);
      if |newErrors| > 0 {
        // some field failed: no request is issued
        request := None;
      } else {
        isSubmitting := true;
        submitStatus := Idle;
        request := Some(formData);
      }
      assert formData == form && errors == newErrors;
    }

    /**
      The rest of `handleSubmit`, once the request settles: an ok response clears the form and
      reports success; anything else reports an error and keeps what the visitor typed. Either way
      the form stops submitting (`finally`).
    */
    method HandleResponse(outcome: FetchOutcome)
      modifies this
      ensures !isSubmitting
      ensures outcome == ResponseOk ==>
        submitStatus == Success && formData == Uniform("") && errors == map[] && touched == Uniform(false)
      ensures outcome != ResponseOk ==>
        submitStatus == Error && formData == old(formData) && errors == old(errors) && touched == old(touched)
    {
      if outcome == ResponseOk {
        submitStatus := Success;
        formData := Uniform("");
        errors := map[];
        touched := Uniform(false);
      } else {
        submitStatus := Error;
      }
      isSubmitting := false;
    }

    /** A 3-second timer set after a response fires: the status message goes back to idle. */
    method RevertStatus()
      modifies this
      ensures submitStatus == Idle
      ensures formData == old(formData) && errors == old(errors) && touched == old(touched)
      ensures isSubmitting == old(isSubmitting)
    {
      submitStatus := Idle;
    }
  }

  /** After a successful response no inline error is shown and the button is enabled again. */
  method SuccessfulSubmission(c: ContactController) returns (request: Option<PerField<string>>)
    modifies c
    ensures request.Some? ==> !c.SubmitDisabled() && c.submitStatus == Success
    ensures request.Some? ==> forall g :: !c.ShowsError(g)
    ensures request.None? ==> c.submitStatus == old(c.submitStatus) && c.formData == old(c.formData)
  {
    request := c.HandleSubmit();
    if request.Some? {
      assert c.SubmitDisabled();
      c.HandleResponse(ResponseOk);
    }
  }

  /** Sample inputs and their verdicts. */
  lemma ValidEmailExample()
    ensures ValidateField(Email, "a@b.co") == ""
  {
    assert MatchesAt("a@b.co", 1, 3);
    ValidateFieldVerdicts(Email, "a@b.co");
  }

  /** A single emoji is two UTF-16 code units, so it is long enough for a name. */
  lemma EmojiNameExample()
    ensures ValidateField(Name, "\U{1F600}") == ""
  {
    var s := "\U{1F600}";
    assert !IsSpace(s[0]);
    assert TrimStart(s) == s;
    assert TrimEnd(s) == s;
    assert Utf16Length(s) == 2 + Utf16Length(s[1..]);
  }

  lemma InvalidEmailExample()
    ensures ValidateField(Email, "not-an-email") == EmailInvalid
  {
    var s := "not-an-email";
    assert !IsSpace(s[0]);
    assert '@' !in s;
    assert !IsValidEmail(s);
  }

  lemma ShortNameExample()
    ensures ValidateField(Name, " J ") == NameTooShort
  {
    var s := " J ";
    assert IsSpace(s[0]) && s[1..] == "J ";
    assert !IsSpace("J "[0]);
    assert TrimStart(s) == "J ";
    assert IsSpace("J "[1]) && "J "[..1] == "J";
    assert !IsSpace("J"[0]);
    assert TrimEnd("J ") == "J";
    assert Trim(s) == "J";
    assert Utf16Length("J") == 1 + Utf16Length("J"[1..]);
  }
}
