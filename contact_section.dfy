/**
 The booking section's component state: whether the form is shown, the
 values typed so far, the field-to-message error map, and the submission
 lifecycle (idle, sending while the simulated delay runs, received). The
 delay's callback is an explicit transition, `TimerFires`.
 */
module ContactSection {
  import opened Wrappers
  import opened Booking

  /** The `maxLength` attributes of the name, email, phone and message inputs. */
  const NAME_MAX_LENGTH := 100
  const EMAIL_MAX_LENGTH := 255
  const PHONE_MAX_LENGTH := 20
  const MESSAGE_MAX_LENGTH := 1000

  /** The fields whose error the form renders under the input. */
  const SHOWN_ERROR_FIELDS: set<Field> := {Name, Email, Service}

  /** Values that typing into the inputs can produce: none is longer than its
      input's `maxLength`. */
  predicate WithinInputLimits(d: FormData)
  {
    && |d.name| <= NAME_MAX_LENGTH
    && |d.email| <= EMAIL_MAX_LENGTH
    && |d.phone| <= PHONE_MAX_LENGTH
    && |d.message| <= MESSAGE_MAX_LENGTH
  }

  /** Within the input limits no length check can fail, so a failed submit
      only ever marks the name, the email or the service, all of which show
      their message, and it always marks at least one of them. */
  lemma FailuresWithinLimitsAreShown(d: FormData, isEmail: string -> bool)
    requires WithinInputLimits(d)
    ensures FieldErrors(Issues(d, isEmail)).Keys <= SHOWN_ERROR_FIELDS
    ensures !Accepts(d, isEmail) ==> FieldErrors(Issues(d, isEmail)) != map[]
  {
    SubmitErrorsAreFailingFields(d, isEmail);
    assert FieldOk(Phone, d.Get(Phone), isEmail);
    assert FieldOk(Message, d.Get(Message), isEmail);
    if !Accepts(d, isEmail) {
      var f :| !FieldOk(f, d.Get(f), isEmail);
      assert f in FieldErrors(Issues(d, isEmail)).Keys;
    }
  }

  class ContactForm {
    var showForm: bool
    var formData: FormData
    var errors: map<Field, string>
    var isSubmitting: bool
    var isSubmitted: bool
    /** The parsed values the scheduled delay callback will log, while it is
        scheduled. */
    var pending: Option<FormData>

    /** Every stored message is non-empty; a callback is scheduled exactly
        while sending; sending and received exclude each other; and from the
        moment a submit succeeds the error map stays empty. */
    ghost predicate Valid()
      reads this
    {
      && (forall f :: f in errors ==> errors[f] != "")
      && (isSubmitting <==> pending.Some?)
      && !(isSubmitting && isSubmitted)
      && (isSubmitting || isSubmitted ==> errors == map[])
    }

    /** The form is rendered (as opposed to the confirmation or nothing). */
    predicate FormRendered()
      reads this
    {
      showForm && !isSubmitted
    }

    /** The initial state: form hidden, every field empty, no errors, idle. */
    constructor ()
      ensures Valid()
      ensures !showForm && formData == INITIAL_DATA && errors == map[]
      ensures !isSubmitting && !isSubmitted && pending == None
    {
      showForm := false;
      formData := INITIAL_DATA;
      errors := map[];
      isSubmitting := false;
      isSubmitted := false;
      pending := None;
    }

    /** The "Book a Shoot" button: show or hide the form. Nothing else changes,
        so a hidden form keeps its values, errors and lifecycle. */
    method ToggleForm()
      requires Valid()
      modifies this
      ensures Valid()
      ensures showForm == !old(showForm)
      ensures formData == old(formData) && errors == old(errors)
      ensures isSubmitting == old(isSubmitting) && isSubmitted == old(isSubmitted) && pending == old(pending)
    {
      showForm := !showForm;
    }

    /** `handleChange`: store the new value; if the field had a (non-empty,
        hence truthy) message, drop it. Other fields keep their messages. */
    method HandleChange(field: Field, value: string)
      requires Valid()
      modifies this
      ensures Valid()
      ensures formData == old(formData).Set(field, value)
      ensures errors == old(errors) - {field}
      ensures field !in errors
      ensures forall g :: g != field && g in old(errors) ==> g in errors && errors[g] == old(errors)[g]
      ensures showForm == old(showForm) && isSubmitting == old(isSubmitting)
      ensures isSubmitted == old(isSubmitted) && pending == old(pending)
    {
      formData := formData.Set(field, value);
      if field in errors && errors[field] != "" {
        errors := errors - {field};
      }
    }

    /** A submit of the rendered form while its button is enabled runs
        `handleSubmit`: clear the errors and parse the current values; on
        failure store one message per failing field, on success start sending
        and schedule the callback with the parsed values. A submit that cannot
        happen (form not rendered, button disabled) changes nothing. */
    method Submit(isEmail: string -> bool)
      requires Valid()
      modifies this
      ensures Valid()
      ensures formData == old(formData) && showForm == old(showForm) && isSubmitted == old(isSubmitted)
      ensures !old(FormRendered() && !isSubmitting) ==>
                errors == old(errors) && isSubmitting == old(isSubmitting) && pending == old(pending)
      ensures old(FormRendered() && !isSubmitting) ==>
                match SafeParse(formData, isEmail)
                case Failure(issues) => errors == FieldErrors(issues) && !isSubmitting && pending == None
                case Success(parsed) => errors == map[] && isSubmitting && pending == Some(parsed)
    {
      if showForm && !isSubmitted && !isSubmitting {
        errors := map[];
        var result := SafeParse(formData, isEmail);
        if result.Failure? {
          var fieldErrors := BuildFieldErrors(result.error);
          FieldErrorsNonEmpty(result.error);
          errors := fieldErrors;
          return;
        }
        isSubmitting := true;
        pending := Some(result.value);
      }
    }

    /** The delay elapses: the callback logs the parsed values (returned here)
        and the booking is received. */
    method TimerFires() returns (logged: FormData)
      requires Valid() && pending.Some?
      modifies this
      ensures Valid()
      ensures logged == old(pending).value
      ensures isSubmitted && !isSubmitting && pending == None
      ensures showForm == old(showForm) && formData == old(formData) && errors == old(errors)
    {
      logged := pending.value;
      isSubmitted := true;
      isSubmitting := false;
      pending := None;
    }
  }

  /** The whole journey: open the form, submit it untouched (three messages),
      fill in the required fields (their messages go), submit again, and let
      the delay elapse; the booking is received with the trimmed values. */
  method BookingJourney(name: string, email: string, service: string, isEmail: string -> bool)
    returns (form: ContactForm, logged: FormData)
    requires !isEmail("")
    requires FieldOk(Name, name, isEmail) && FieldOk(Email, email, isEmail) && FieldOk(Service, service, isEmail)
    ensures form.Valid()
    ensures form.isSubmitted && !form.isSubmitting && form.errors == map[]
    ensures logged == FormData(Trim(name), Trim(email), "", service, "")
  {
    form := new ContactForm();
    form.ToggleForm();
    form.Submit(isEmail);
    InitialSubmissionErrors(isEmail);
    assert form.errors.Keys == {Name, Email, Service};
    form.HandleChange(Name, name);
    form.HandleChange(Email, email);
    form.HandleChange(Service, service);
    assert form.errors == map[];
    assert form.formData == FormData(name, email, "", service, "");
    RequiredFieldsSuffice(name, email, service, isEmail);
    TrimEmpty();
    form.Submit(isEmail);
    logged := form.TimerFires();
  }
}
