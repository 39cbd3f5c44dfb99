/**
 * The checks the contact form's submit handler runs on its four fields.
 * A field whose element is missing from the form is `None`; a present
 * field holds its raw, untrimmed value.
 */
module Validation {
  import opened Wrappers
  import opened Text
  import opened Patterns

  datatype Field = Name | Phone | Email | Message

  /** The form's fields, in the order the handler looks them up and checks them. */
  const AllFields: seq<Field> := [Name, Phone, Email, Message]

  /** One kind per user-facing message the handler can attach to a field. */
  datatype FieldError =
    | NameRequired     // "please fill in your full name"
    | PhoneRequired    // "please fill in a phone number"
    | PhoneInvalid     // "the phone number is not valid"
    | EmailInvalid     // "the email address is not valid"
    | MessageRequired  // "please write a short message"

  datatype FormValues = FormValues(name: Option<string>, phone: Option<string>,
                                   email: Option<string>, message: Option<string>)
  {
    /** The value of field `f` (`None` when its element is absent). */
    function Get(f: Field): Option<string>
    {
      match f
      case Name => name
      case Phone => phone
      case Email => email
      case Message => message
    }

    /** The same form with the value of field `f` replaced by `v`. */
    function Set(f: Field, v: string): (r: FormValues)
      ensures r.Get(f) == Some(v)
      ensures forall g :: g != f ==> r.Get(g) == Get(g)
    {
      match f
      case Name => this.(name := Some(v))
      case Phone => this.(phone := Some(v))
      case Email => this.(email := Some(v))
      case Message => this.(message := Some(v))
    }

    /** The fields whose elements are present. */
    function Present(): (p: set<Field>)
      ensures forall f :: f in p <==> Get(f).Some?
    {
      set f | f in AllFields && Get(f).Some?
    }
  }

  /** Absent, or empty after trimming. */
  predicate MissingOrBlank(v: Option<string>)
  {
    v.None? || IsBlank(v.value)
  }

  /** js/script.js:61-64 — the name is required. */
  function NameCheck(v: Option<string>): (e: Option<FieldError>)
    ensures e.Some? <==> MissingOrBlank(v)
    ensures e.Some? ==> e.value == NameRequired
  {
    if MissingOrBlank(v) then Some(NameRequired) else None
  }

  /**
   * js/script.js:65-71 — the phone is required, and a non-blank one must match
   * the pattern. Stated with the pattern's independent description: missing
   * or blank gives "required" and never "invalid"; a value with content is
   * "invalid" exactly when its trimmed text lacks the phone shape.
   */
  function PhoneCheck(v: Option<string>): (e: Option<FieldError>)
    ensures MissingOrBlank(v) ==> e == Some(PhoneRequired)
    ensures e == Some(PhoneInvalid) <==> !MissingOrBlank(v) && !PhoneShape(Trim(v.value))
    ensures e == None <==> !MissingOrBlank(v) && PhoneShape(Trim(v.value))
  {
    if MissingOrBlank(v) then Some(PhoneRequired)
    else
      PhoneMatchesIff(Trim(v.value));
      if !PhoneMatches(Trim(v.value)) then Some(PhoneInvalid)
      else None
  }

  /**
   * js/script.js:72-77 — the email is optional, but a non-blank one must match
   * the pattern: only a present, non-blank value is looked at, and it fails
   * exactly when its trimmed text lacks the address shape.
   */
  function EmailCheck(v: Option<string>): (e: Option<FieldError>)
    ensures e.Some? <==> v.Some? && !IsBlank(v.value) && !EmailShape(Trim(v.value))
    ensures e.Some? ==> e.value == EmailInvalid
  {
    if v.Some? && !IsBlank(v.value) then
      EmailMatchesIff(Trim(v.value));
      if !EmailMatches(Trim(v.value)) then Some(EmailInvalid) else None
    else None
  }

  /** js/script.js:78-81 — a present message must not be blank; an absent one is no error. */
  function MessageCheck(v: Option<string>): (e: Option<FieldError>)
    ensures e.Some? <==> v.Some? && IsBlank(v.value)
    ensures e.Some? ==> e.value == MessageRequired
  {
    if v.Some? && IsBlank(v.value) then Some(MessageRequired) else None
  }

  /** The check the handler runs on field `f`. */
  function Check(f: Field, v: Option<string>): Option<FieldError>
  {
    match f
    case Name => NameCheck(v)
    case Phone => PhoneCheck(v)
    case Email => EmailCheck(v)
    case Message => MessageCheck(v)
  }

  /** Which of four per-field outcomes, given in the order name, phone, email, message, belongs to `f`. */
  function Pick<T>(f: Field, n: T, p: T, e: T, m: T): T
  {
    match f
    case Name => n
    case Phone => p
    case Email => e
    case Message => m
  }

  /** `m` with field `f` recorded as failing with kind `e.value`, when `e` is an error. */
  function Record(m: map<Field, FieldError>, f: Field, e: Option<FieldError>): map<Field, FieldError>
  {
    if e.Some? then m[f := e.value] else m
  }

  /** The errors recorded, from none, for four outcomes taken in the handler's order. */
  function Collect(n: Option<FieldError>, p: Option<FieldError>, e: Option<FieldError>, m: Option<FieldError>)
    : map<Field, FieldError>
  {
    Record(Record(Record(Record(map[], Name, n), Phone, p), Email, e), Message, m)
  }

  /** A field is recorded exactly when its own outcome is an error, and with that error. */
  lemma CollectAt(n: Option<FieldError>, p: Option<FieldError>, e: Option<FieldError>, m: Option<FieldError>, f: Field)
    ensures f in Collect(n, p, e, m) <==> Pick(f, n, p, e, m).Some?
    ensures f in Collect(n, p, e, m) ==> Collect(n, p, e, m)[f] == Pick(f, n, p, e, m).value
  {
  }

  /** The error kind the handler finds for each failing field: at most one per field. */
  function Validate(form: FormValues): map<Field, FieldError>
  {
    Collect(NameCheck(form.name), PhoneCheck(form.phone), EmailCheck(form.email), MessageCheck(form.message))
  }

  /** A field is in the result of `Validate` exactly when its check fails, with that check's kind. */
  lemma ValidateAt(form: FormValues, f: Field)
    ensures f in Validate(form) <==> Check(f, form.Get(f)).Some?
    ensures f in Validate(form) ==> Validate(form)[f] == Check(f, form.Get(f)).value
  {
    var n, p, e, m := NameCheck(form.name), PhoneCheck(form.phone), EmailCheck(form.email), MessageCheck(form.message);
    CollectAt(n, p, e, m, f);
    assert Pick(f, n, p, e, m) == Check(f, form.Get(f)) by {
      match f
      case Name =>
      case Phone =>
      case Email =>
      case Message =>
    }
  }

  /** No field is recorded exactly when all four outcomes are clean. */
  lemma CollectEmpty(n: Option<FieldError>, p: Option<FieldError>, e: Option<FieldError>, m: Option<FieldError>)
    ensures Collect(n, p, e, m) == map[] <==> n.None? && p.None? && e.None? && m.None?
  {
    if n.Some? { CollectAt(n, p, e, m, Name); }
    if p.Some? { CollectAt(n, p, e, m, Phone); }
    if e.Some? { CollectAt(n, p, e, m, Email); }
    if m.Some? { CollectAt(n, p, e, m, Message); }
  }

  /** The handler reaches the send step exactly when no field fails. */
  predicate CanSend(form: FormValues)
  {
    Validate(form) == map[]
  }

  /** Sending is allowed exactly when none of the four checks fails. */
  lemma CanSendIffChecks(form: FormValues)
    ensures CanSend(form) <==>
      NameCheck(form.name).None? && PhoneCheck(form.phone).None? &&
      EmailCheck(form.email).None? && MessageCheck(form.message).None?
  {
    CollectEmpty(NameCheck(form.name), PhoneCheck(form.phone), EmailCheck(form.email), MessageCheck(form.message));
  }

  /** Which fields fail, and with which kind, in terms of the fields' values alone. */
  lemma ValidateSpec(form: FormValues)
    ensures Name in Validate(form) <==> MissingOrBlank(form.name)
    ensures Name in Validate(form) ==> Validate(form)[Name] == NameRequired
    ensures Phone in Validate(form) <==> !(form.phone.Some? && !IsBlank(form.phone.value) && PhoneShape(Trim(form.phone.value)))
    ensures Phone in Validate(form) ==> (Validate(form)[Phone] == PhoneRequired <==> MissingOrBlank(form.phone))
    ensures Email in Validate(form) <==> form.email.Some? && !IsBlank(form.email.value) && !EmailShape(Trim(form.email.value))
    ensures Email in Validate(form) ==> Validate(form)[Email] == EmailInvalid
    ensures Message in Validate(form) <==> form.message.Some? && IsBlank(form.message.value)
    ensures Message in Validate(form) ==> Validate(form)[Message] == MessageRequired
  {
    ValidateAt(form, Name);
    ValidateAt(form, Phone);
    ValidateAt(form, Email);
    ValidateAt(form, Message);
  }

  /** Sending is allowed exactly when all four conditions hold at once. */
  lemma CanSendIff(form: FormValues)
    ensures CanSend(form) <==>
      && form.name.Some? && !IsBlank(form.name.value)
      && form.phone.Some? && !IsBlank(form.phone.value) && PhoneShape(Trim(form.phone.value))
      && (form.email.None? || IsBlank(form.email.value) || EmailShape(Trim(form.email.value)))
      && (form.message.None? || !IsBlank(form.message.value))
  {
    ValidateSpec(form);
    CanSendIffChecks(form);
  }

  /** A blank value is whitespace only, so "required" is reported for e.g. "   ". */
  lemma BlankNameRequired(v: string)
    requires AllWhitespace(v)
    ensures NameCheck(Some(v)) == Some(NameRequired)
    ensures PhoneCheck(Some(v)) == Some(PhoneRequired)
  {
  }

  /** A phone value without surrounding whitespace is judged by the pattern alone. */
  lemma PhoneCheckOfTrimmed(v: string)
    requires v != [] && !IsWhitespace(v[0]) && !IsWhitespace(v[|v| - 1])
    ensures PhoneCheck(Some(v)) == if PhoneMatches(v) then None else Some(PhoneInvalid)
  {
    TrimOfTrimmed(v);
  }

  /** `123` is reported invalid, not missing. */
  lemma PhoneCheckRejectsShort()
    ensures PhoneCheck(Some("123")) == Some(PhoneInvalid)
  {
    var v := "123";
    assert !IsWhitespace(v[0]) && !IsWhitespace(v[2]);
    PhoneCheckOfTrimmed(v);
    PhoneRejects();
  }

  /** `0501234567` passes the phone check. */
  lemma PhoneCheckAcceptsPlain()
    ensures PhoneCheck(Some("0501234567")) == None
  {
    var v := "0501234567";
    assert !IsWhitespace(v[0]) && !IsWhitespace(v[9]);
    PhoneCheckOfTrimmed(v);
    PhoneAcceptsPlain();
  }

  /** A value that neither starts nor ends with whitespace is its own trim. */
  lemma TrimOfTrimmed(s: string)
    requires s != [] && !IsWhitespace(s[0]) && !IsWhitespace(s[|s| - 1])
    ensures Trim(s) == s && !IsBlank(s)
  {
  }
}
