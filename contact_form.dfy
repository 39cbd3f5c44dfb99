/**
 * The contact form's state on the page and the three handlers that change it:
 * submit (clear, validate, then flag errors or start sending), the settling of
 * the simulated send, and the per-field input handler.
 */
module ContactForm {
  import opened Wrappers
  import opened Text
  import opened Validation

  /** The texts the notice banner can show. */
  datatype NoticeText =
    | NoText         // ''
    | FormHasErrors  // "the form has errors; fix them and submit again"
    | SendingText    // "sending…"
    | SentOk         // "the message was sent; we will get back to you soon"
    | SendFailed     // "sending failed; try again in a moment"

  /** The notice's type argument: '' (neutral), 'success' or 'error'. */
  datatype Severity = Neutral | Success | Error

  datatype Notice = Notice(text: NoticeText, severity: Severity)

  /** `setNotice('', '')`. */
  const Cleared := Notice(NoText, Neutral)

  /**
   * The field errors the page shows after a submit: those `Validate` finds,
   * except on a field whose element is missing, where `setFieldError` returns
   * without marking anything.
   */
  function Shown(form: FormValues): (m: map<Field, FieldError>)
    ensures m.Keys <= form.Present()
    ensures forall f :: f in form.Present() ==> (f in m <==> f in Validate(form))
    ensures forall f :: f in m ==> m[f] == Validate(form)[f]
  {
    map f | f in Validate(form) && form.Get(f).Some? :: Validate(form)[f]
  }

  /** What `setFieldError` records for field `f` when its check found `e`: nothing if the element is absent. */
  function IfPresent(form: FormValues, f: Field, e: Option<FieldError>): Option<FieldError>
  {
    if form.Get(f).Some? then e else None
  }

  /** The marks the four checks leave, built field by field in the order the handler runs them. */
  function MarkAll(form: FormValues): map<Field, FieldError>
  {
    Collect(IfPresent(form, Name, NameCheck(form.name)), IfPresent(form, Phone, PhoneCheck(form.phone)),
            IfPresent(form, Email, EmailCheck(form.email)), IfPresent(form, Message, MessageCheck(form.message)))
  }

  /** Marking the four fields one after the other, from no marks, gives exactly the shown errors. */
  lemma MarkAllIsShown(form: FormValues)
    ensures MarkAll(form) == Shown(form)
  {
    var n, p := IfPresent(form, Name, NameCheck(form.name)), IfPresent(form, Phone, PhoneCheck(form.phone));
    var e, m := IfPresent(form, Email, EmailCheck(form.email)), IfPresent(form, Message, MessageCheck(form.message));
    var marks := MarkAll(form);
    forall f ensures (f in marks <==> f in Shown(form)) && (f in marks ==> marks[f] == Shown(form)[f]) {
      CollectAt(n, p, e, m, f);
      ValidateAt(form, f);
      assert Pick(f, n, p, e, m) == IfPresent(form, f, Check(f, form.Get(f))) by {
        match f
        case Name =>
        case Phone =>
        case Email =>
        case Message =>
      }
    }
  }

  /** `form.reset()`: every present field goes back to its (empty) default. */
  function Reset(form: FormValues): (r: FormValues)
    ensures forall f :: r.Get(f) == if form.Get(f).Some? then Some("") else None
    ensures r.Present() == form.Present()
  {
    FormValues(
      if form.name.Some? then Some("") else None,
      if form.phone.Some? then Some("") else None,
      if form.email.Some? then Some("") else None,
      if form.message.Some? then Some("") else None)
  }

  /** A reset form fails again on name and phone, so an immediate resubmit is blocked. */
  lemma ResetFormFails(form: FormValues)
    ensures Name in Validate(Reset(form)) && Validate(Reset(form))[Name] == NameRequired
    ensures Phone in Validate(Reset(form)) && Validate(Reset(form))[Phone] == PhoneRequired
    ensures !CanSend(Reset(form))
  {
    var r := Reset(form);
    assert IsBlank("") by { assert Trim("") == ""; }
    assert NameCheck(r.name) == Some(NameRequired);
    assert PhoneCheck(r.phone) == Some(PhoneRequired);
    ValidateAt(r, Name);
    ValidateAt(r, Phone);
    CanSendIffChecks(r);
  }

  class Session {
    /** The four fields' current values (`None`: the element is absent). */
    var values: FormValues
    /** The fields marked `field-error` / `aria-invalid`, with the hint text shown in each field's own container. */
    var errors: map<Field, FieldError>
    /** The notice banner below the form. */
    var notice: Notice
    /** A simulated send has been started and has not settled yet. */
    var pending: bool

    /** Error markers exist only on elements that exist. */
    ghost predicate Valid()
      reads this
    {
      errors.Keys <= values.Present()
    }

    constructor (initial: FormValues)
      ensures Valid()
      ensures values == initial && errors == map[] && notice == Cleared && !pending
    {
      values := initial;
      errors := map[];
      notice := Cleared;
      pending := false;
    }

    /** `clearFieldState`: remove the field's error marker and empty its hint. */
    method ClearFieldState(f: Field)
      modifies this`errors
      ensures errors == old(errors) - {f}
    {
      errors := errors - {f};
    }

    /** `setFieldError`: nothing when the element is absent, otherwise mark it with `e`. */
    method SetFieldError(f: Field, e: FieldError)
      modifies this`errors
      ensures errors == if values.Get(f).Some? then old(errors)[f := e] else old(errors)
    {
      if values.Get(f).None? {
        return;
      }
      errors := errors[f := e];
    }

    /** `setNotice`: the banner shows `text` with severity `severity`. */
    method SetNotice(text: NoticeText, severity: Severity)
      modifies this`notice
      ensures notice == Notice(text, severity)
    {
      notice := Notice(text, severity);
    }

    /**
     * The submit handler. It clears every present field's error state and the
     * notice, runs the checks in order, and then either shows the error notice
     * and stops, or starts the simulated send (whose "sending" notice is set
     * at once).
     */
    method Submit() returns (sent: bool)
      requires Valid()
      modifies this
      ensures Valid()
      ensures values == old(values)
      ensures errors == Shown(values)
      ensures sent <==> CanSend(values)
      ensures sent ==> notice == Notice(SendingText, Neutral) && pending
      ensures !sent ==> notice == Notice(FormHasErrors, Error) && pending == old(pending)
    {
      ClearAll();
      SetNotice(NoText, Neutral);
      var hasError := CheckFields();
      if hasError {
        SetNotice(FormHasErrors, Error);
        return false;
      }
      SetNotice(SendingText, Neutral);
      pending := true;
      return true;
    }

    /** `[name, phone, email, message].forEach(el => el && clearFieldState(el))`. */
    method ClearAll()
      requires Valid()
      modifies this`errors
      ensures errors == map[]
    {
      for i := 0 to |AllFields|
        invariant errors.Keys <= values.Present()
        invariant forall k | 0 <= k < i :: AllFields[k] !in errors
      {
        if values.Get(AllFields[i]).Some? {
          ClearFieldState(AllFields[i]);
        }
      }
    }

    /**
     * The sequence of checks, in the order name, phone, email, message: each
     * failing field is marked (when its element exists) and `hasError`
     * records that some check failed.
     */
    method CheckFields() returns (hasError: bool)
      requires errors == map[]
      modifies this`errors
      ensures errors == Shown(values)
      ensures hasError <==> !CanSend(values)
    {
      ghost var form := values;
      hasError := false;
      var failed := CheckName();
      hasError := hasError || failed;
      failed := CheckPhone();
      hasError := hasError || failed;
      failed := CheckEmail();
      hasError := hasError || failed;
      failed := CheckMessage();
      hasError := hasError || failed;
      assert errors == MarkAll(form);
      MarkAllIsShown(form);
      CanSendIffChecks(form);
    }

    /** The name check: a missing or blank name is marked "required". */
    method CheckName() returns (failed: bool)
      modifies this`errors
      ensures failed <==> NameCheck(values.name).Some?
      ensures errors == Record(old(errors), Name, IfPresent(values, Name, NameCheck(values.name)))
    {
      var name := values.name;
      failed := false;
      if name.None? || IsBlank(name.value) {
        SetFieldError(Name, NameRequired);
        failed := true;
      }
    }

    /** The phone check: "required" when missing or blank, else "invalid" when the pattern fails. */
    method CheckPhone() returns (failed: bool)
      modifies this`errors
      ensures failed <==> PhoneCheck(values.phone).Some?
      ensures errors == Record(old(errors), Phone, IfPresent(values, Phone, PhoneCheck(values.phone)))
    {
      var phone := values.phone;
      failed := false;
      if phone.None? || IsBlank(phone.value) {
        SetFieldError(Phone, PhoneRequired);
        failed := true;
      } else if !Patterns.PhoneMatches(Trim(phone.value)) {
        SetFieldError(Phone, PhoneInvalid);
        failed := true;
      }
    }

    /** The email check: only a present, non-blank address is matched against the pattern. */
    method CheckEmail() returns (failed: bool)
      modifies this`errors
      ensures failed <==> EmailCheck(values.email).Some?
      ensures errors == Record(old(errors), Email, IfPresent(values, Email, EmailCheck(values.email)))
    {
      var email := values.email;
      failed := false;
      if email.Some? && !IsBlank(email.value) {
        if !Patterns.EmailMatches(Trim(email.value)) {
          SetFieldError(Email, EmailInvalid);
          failed := true;
        }
      }
    }

    /** The message check: a present but blank message is marked "required". */
    method CheckMessage() returns (failed: bool)
      modifies this`errors
      ensures failed <==> MessageCheck(values.message).Some?
      ensures errors == Record(old(errors), Message, IfPresent(values, Message, MessageCheck(values.message)))
    {
      var message := values.message;
      failed := false;
      if message.Some? && IsBlank(message.value) {
        SetFieldError(Message, MessageRequired);
        failed := true;
      }
    }

    /**
     * The simulated send settles: `ok` stands for the random draw. Success
     * resets the form and shows the success notice; failure keeps every value
     * and shows the retry notice.
     */
    method Resolve(ok: bool)
      requires Valid() && pending
      modifies this
      ensures Valid() && !pending
      ensures errors == old(errors)
      ensures ok ==> values == Reset(old(values)) && notice == Notice(SentOk, Success)
      ensures !ok ==> values == old(values) && notice == Notice(SendFailed, Error)
    {
      if ok {
        values := Reset(values);
        SetNotice(SentOk, Success);
      } else {
        SetNotice(SendFailed, Error);
      }
      pending := false;
    }

    /**
     * The user edits field `f` so that it holds `v`, and the input handler
     * clears that field's error state. Nothing else changes.
     */
    method Input(f: Field, v: string)
      requires Valid() && values.Get(f).Some?
      modifies this`values, this`errors
      ensures Valid()
      ensures values == old(values).Set(f, v)
      ensures errors == old(errors) - {f}
      ensures notice == old(notice) && pending == old(pending)
    {
      values := values.Set(f, v);
      ClearFieldState(f);
    }
  }

  /**
   * A complete successful round: valid fields, submit, the send succeeds.
   * The form is empty afterwards and the success notice is shown.
   */
  method SuccessfulRound(initial: FormValues) returns (sent: bool, after: FormValues, shown: Notice)
    requires CanSend(initial)
    ensures sent && after == Reset(initial) && shown == Notice(SentOk, Success)
  {
    var s := new Session(initial);
    sent := s.Submit();
    s.Resolve(true);
    after, shown := s.values, s.notice;
  }

  /**
   * A failed round: the values survive for a retry, and with them the same
   * outcome of the checks.
   */
  method FailedRound(initial: FormValues) returns (sent: bool, after: FormValues, shown: Notice)
    requires CanSend(initial)
    ensures sent && after == initial && CanSend(after) && shown == Notice(SendFailed, Error)
  {
    var s := new Session(initial);
    sent := s.Submit();
    s.Resolve(false);
    after, shown := s.values, s.notice;
  }
}
