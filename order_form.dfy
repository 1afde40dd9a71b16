/** The client-side order form of the landing page (OrderSection): four text
    fields, a per-field error map and an "is submitting" flag, with the
    submit-time validation, the submit handler and the keystroke handler. */
module OrderForm {
  import opened Optional
  import opened JsText

  /** The four inputs of the form; handleChange is only ever wired to them. */
  datatype Field = Name | Phone | Email | Comment

  datatype FormData = FormData(name: string, phone: string, email: string, comment: string) {

    function Get(f: Field): string {
      match f
      case Name => name
      case Phone => phone
      case Email => email
      case Comment => comment
    }

    /** The record spread `{ ...prev, [f]: v }`: only field f changes. */
    function With(f: Field, v: string): (r: FormData)
      ensures r.Get(f) == v
      ensures forall g: Field | g != f :: r.Get(g) == Get(g)
    {
      match f
      case Name => this.(name := v)
      case Phone => this.(phone := v)
      case Email => this.(email := v)
      case Comment => this.(comment := v)
    }
  }

  const EmptyForm: FormData := FormData("", "", "", "")

  const NameRequired: string := "Пожалуйста, введите ваше имя"
  const PhoneRequired: string := "Пожалуйста, введите номер телефона"
  const PhoneInvalid: string := "Введите корректный номер телефона"
  const EmailRequired: string := "Пожалуйста, введите email"
  const EmailInvalid: string := "Введите корректный email адрес"

  /** The error record: a key is present when validation flagged that field;
      a keystroke later blanks the message but keeps the key. */
  type Errors = map<Field, string>

  /** The message the validator attaches to one field of d, if any. */
  function FieldError(d: FormData, f: Field): (r: Option<string>)
    ensures f == Comment ==> r == None
    ensures f == Name ==> (r.Some? <==> IsBlank(d.name)) && (r.Some? ==> r.value == NameRequired)
    ensures f == Phone ==> (r.Some? <==> IsBlank(d.phone) || !PhonePattern(d.phone))
    ensures f == Phone && r.Some? ==> r.value == (if IsBlank(d.phone) then PhoneRequired else PhoneInvalid)
    ensures f == Email ==> (r.None? <==> WellFormedEmail(d.email))
    ensures f == Email && r.Some? ==> r.value == (if IsBlank(d.email) then EmailRequired else EmailInvalid)
  {
    EmailPatternIsWellFormed(d.email);
    match f
    case Name => if Trim(d.name) == "" then Some(NameRequired) else None
    case Phone =>
      if Trim(d.phone) == "" then Some(PhoneRequired)
      else if !PhonePattern(d.phone) then Some(PhoneInvalid)
      else None
    case Email =>
      if Trim(d.email) == "" then Some(EmailRequired)
      else if !EmailPattern(d.email) then Some(EmailInvalid)
      else None
    case Comment => None
  }

  /** Records the outcome o of one field's rule in e. */
  function Record(e: Errors, f: Field, o: Option<string>): Errors {
    if o.Some? then e[f := o.value] else e
  }

  /** The error map a validation of d produces: exactly the flagged fields,
      each with its message. */
  function ValidationErrors(d: FormData): (e: Errors)
    ensures e.Keys <= {Name, Phone, Email}
    ensures Name in e <==> FieldError(d, Name).Some?
    ensures Phone in e <==> FieldError(d, Phone).Some?
    ensures Email in e <==> FieldError(d, Email).Some?
    ensures Name in e ==> Some(e[Name]) == FieldError(d, Name)
    ensures Phone in e ==> Some(e[Phone]) == FieldError(d, Phone)
    ensures Email in e ==> Some(e[Email]) == FieldError(d, Email)
  {
    var e := Record(map[], Name, FieldError(d, Name));
    var e := Record(e, Phone, FieldError(d, Phone));
    Record(e, Email, FieldError(d, Email))
  }

  predicate IsValid(d: FormData) {
    ValidationErrors(d) == map[]
  }

  /** An error is displayed for f when its message is non-empty (`errors.f &&`). */
  predicate Shown(e: Errors, f: Field) {
    f in e && e[f] != ""
  }

  /** The error update of handleChange: blank f's message if one is shown. */
  function ClearError(e: Errors, f: Field): (r: Errors)
    ensures r.Keys == e.Keys
    ensures forall g | g in e && g != f :: r[g] == e[g]
    ensures f in e ==> r[f] == ""
    ensures !Shown(e, f) ==> r == e
  {
    if Shown(e, f) then e[f := ""] else e
  }

  class OrderSection {
    var formData: FormData
    var errors: Errors
    var isSubmitting: bool

    /** The initial state: all fields empty, no errors, not submitting. */
    constructor ()
      ensures formData == EmptyForm && errors == map[] && !isSubmitting
    {
      formData := EmptyForm;
      errors := map[];
      isSubmitting := false;
    }

    /** validateForm: builds a fresh error map field by field, replaces the
        old one wholesale, and reports whether the new map has no keys. */
    method ValidateForm() returns (valid: bool)
      modifies this`errors
      ensures errors == ValidationErrors(formData)
      ensures valid <==> errors == map[]
    {
      var newErrors: Errors := map[];
      if Trim(formData.name) == "" {
        newErrors := newErrors[Name := NameRequired];
      }
      if Trim(formData.phone) == "" {
        newErrors := newErrors[Phone := PhoneRequired];
      } else if !PhonePattern(formData.phone) {
        newErrors := newErrors[Phone := PhoneInvalid];
      }
      if Trim(formData.email) == "" {
        newErrors := newErrors[Email := EmailRequired];
      } else if !EmailPattern(formData.email) {
        newErrors := newErrors[Email := EmailInvalid];
      }
      errors := newErrors;
      valid := |newErrors.Keys| == 0;
      assert valid <==> newErrors == map[] by {
        if |newErrors.Keys| == 0 { assert newErrors.Keys == {}; }
      }
    }

    /** handleSubmit up to the simulated delay: validate, stop if invalid,
        otherwise raise the submitting flag. */
    method BeginSubmit() returns (started: bool)
      modifies this`errors, this`isSubmitting
      ensures errors == ValidationErrors(formData)
      ensures started <==> IsValid(formData)
      ensures isSubmitting == (started || old(isSubmitting))
    {
      var valid := ValidateForm();
      if !valid {
        return false;
      }
      isSubmitting := true;
      started := true;
    }

    /** handleSubmit after the simulated delay: reset the fields and drop
        the submitting flag. */
    method FinishSubmit()
      modifies this`formData, this`isSubmitting
      ensures formData == EmptyForm && !isSubmitting
    {
      formData := FormData("", "", "", "");
      isSubmitting := false;
    }

    /** handleSubmit run to completion with no event in between: invalid
        input changes only the error map; valid input ends with empty fields
        and the flag down. */
    method HandleSubmit() returns (submitted: bool)
      modifies this`formData, this`errors, this`isSubmitting
      ensures errors == ValidationErrors(old(formData))
      ensures submitted <==> IsValid(old(formData))
      ensures !submitted ==> formData == old(formData) && isSubmitting == old(isSubmitting)
      ensures submitted ==> formData == EmptyForm && !isSubmitting
    {
      submitted := BeginSubmit();
      if submitted {
        FinishSubmit();
      }
    }

    /** handleChange: set the one field, and blank its error if one is shown. */
    method HandleChange(field: Field, value: string)
      modifies this`formData, this`errors
      ensures formData == old(formData).With(field, value)
      ensures errors == ClearError(old(errors), field)
    {
      formData := formData.With(field, value);
      if field in errors && errors[field] != "" {
        errors := errors[field := ""];
      }
    }
  }

  // -----------------------------------------------------------------------
  // What validation promises, field by field

  /** The name is flagged exactly when it trims to nothing. */
  lemma NameErrorIffBlank(d: FormData)
    ensures Name in ValidationErrors(d) <==> IsBlank(d.name)
    ensures Name in ValidationErrors(d) ==> ValidationErrors(d)[Name] == NameRequired
  {
  }

  /** A blank phone is "required"; otherwise it is flagged as malformed
      exactly when some character is outside digits, white space and "+-()". */
  lemma PhoneErrorCases(d: FormData)
    ensures IsBlank(d.phone) ==> Phone in ValidationErrors(d) && ValidationErrors(d)[Phone] == PhoneRequired
    ensures !IsBlank(d.phone) ==>
      && (Phone in ValidationErrors(d) <==> exists k | 0 <= k < |d.phone| :: !IsPhoneChar(d.phone[k]))
      && (Phone in ValidationErrors(d) ==> ValidationErrors(d)[Phone] == PhoneInvalid)
  {
  }

  /** A blank email is "required"; otherwise it is accepted exactly when it
      has no white space, exactly one '@' with something before it, and a '.'
      after the '@' with a character on each side. */
  lemma EmailErrorCases(d: FormData)
    ensures IsBlank(d.email) ==> Email in ValidationErrors(d) && ValidationErrors(d)[Email] == EmailRequired
    ensures !IsBlank(d.email) ==>
      && (Email !in ValidationErrors(d) <==> WellFormedEmail(d.email))
      && (Email in ValidationErrors(d) ==> ValidationErrors(d)[Email] == EmailInvalid)
  {
    EmailPatternIsWellFormed(d.email);
  }

  /** The comment is never flagged, and only the three required fields can be. */
  lemma CommentNeverFlagged(d: FormData)
    ensures Comment !in ValidationErrors(d)
    ensures ValidationErrors(d).Keys <= {Name, Phone, Email}
  {
  }

  /** The form is valid exactly when each required field passes its rule. */
  lemma ValidIffFieldsPass(d: FormData)
    ensures IsValid(d) <==>
      && !IsBlank(d.name)
      && !IsBlank(d.phone) && PhonePattern(d.phone)
      && WellFormedEmail(d.email)
  {
    EmailPatternIsWellFormed(d.email);
    if IsValid(d) {
      assert Name !in ValidationErrors(d);
      assert Phone !in ValidationErrors(d);
      assert Email !in ValidationErrors(d);
    } else {
      var f :| f in ValidationErrors(d);
    }
  }

  /** A phone made only of parentheses passes the phone rule. */
  lemma ParenthesesArePhone()
    ensures FieldError(FormData("a", "()", "a@b.c", ""), Phone) == None
  {
  }
}
