/** The contact page's form controller: the form fields, the error map, and
    the submission lifecycle driven by the flags `isSubmitting` and
    `isSubmitted`. The 2000 ms simulated send and the 5000 ms banner timer
    are events (SendResolved, ResetTimerFired), not time. */
module ContactPage {
  import opened ContactRules
  import Reveal

  /** The only keys validation ever sets. */
  const CheckedFields: set<Field> := {Name, Email, Message, Service}

  class ContactForm {
    var formData: FormData
    var errors: Errors
    var isSubmitting: bool
    var isSubmitted: bool
    /** Banner-reset timers scheduled by resolved sends that have not fired. */
    ghost var pendingResets: nat
    const sections: Reveal.RevealMap

    /** Phone and company never carry an error; while a send is in flight
        the error map is empty (validation just passed and edits only clear
        errors); the success banner always has a reset timer pending. */
    ghost predicate Valid()
      reads this
    {
      && errors.Keys <= CheckedFields
      && (isSubmitting ==> errors == map[])
      && (isSubmitted ==> pendingResets > 0)
    }

    constructor()
      ensures Valid()
      ensures formData == EmptyForm && errors == map[]
      ensures !isSubmitting && !isSubmitted && pendingResets == 0
      ensures fresh(sections) && sections.Valid() && sections.shown == map[]
    {
      formData := EmptyForm;
      errors := map[];
      isSubmitting, isSubmitted := false, false;
      pendingResets := 0;
      sections := new Reveal.RevealMap();
    }

    /** `disabled={isSubmitting}` on the submit button. */
    predicate SubmitDisabled()
      reads this
    {
      isSubmitting
    }

    /** validateForm: replace the error map wholesale with the one the rules
        compute, and report whether it has no keys. */
    method ValidateForm() returns (ok: bool)
      requires Valid() && !isSubmitting
      modifies this
      ensures Valid()
      ensures errors == FormErrors(formData)
      ensures ok <==> errors == map[]
      ensures formData == old(formData) && isSubmitting == old(isSubmitting)
      ensures isSubmitted == old(isSubmitted) && pendingResets == old(pendingResets)
    {
      errors := FormErrors(formData);
      ok := |errors| == 0;
    }

    /** handleInputChange: write one field; if that field shows an error,
        clear it to "" (the key stays). Nothing is re-validated. */
    method HandleInputChange(field: Field, value: string)
      requires Valid()
      modifies this
      ensures Valid()
      ensures formData.Get(field) == value
      ensures forall g | g != field :: formData.Get(g) == old(formData.Get(g))
      ensures errors == if HasError(old(errors), field) then old(errors)[field := ""] else old(errors)
      ensures !HasError(errors, field)
      ensures isSubmitting == old(isSubmitting) && isSubmitted == old(isSubmitted)
      ensures pendingResets == old(pendingResets)
    {
      formData := formData.With(field, value);
      if field in errors && errors[field] != "" {
        errors := errors[field := ""];
      }
    }

    /** handleSubmit up to its await: validate; stop if invalid; otherwise
        start the send. Only possible while the button is enabled. */
    method HandleSubmit()
      requires Valid() && !SubmitDisabled()
      modifies this
      ensures Valid()
      ensures errors == FormErrors(old(formData))
      ensures isSubmitting <==> errors == map[]
      ensures formData == old(formData) && isSubmitted == old(isSubmitted)
      ensures pendingResets == old(pendingResets)
    {
      var ok := ValidateForm();
      if !ok {
        return;
      }
      isSubmitting := true;
    }

    /** The simulated send resolved: clear all six fields, show the banner,
        schedule its reset, and (the `finally`) stop submitting. */
    method SendResolved()
      requires Valid() && isSubmitting
      modifies this
      ensures Valid()
      ensures formData == EmptyForm && isSubmitted && !isSubmitting
      ensures errors == old(errors) && pendingResets == old(pendingResets) + 1
    {
      formData := EmptyForm;
      isSubmitted := true;
      pendingResets := pendingResets + 1;
      isSubmitting := false;
    }

    /** A banner-reset timer fired: hide the banner. */
    method ResetTimerFired()
      requires Valid() && pendingResets > 0
      modifies this
      ensures Valid()
      ensures !isSubmitted && pendingResets == old(pendingResets) - 1
      ensures formData == old(formData) && errors == old(errors)
      ensures isSubmitting == old(isSubmitting)
    {
      isSubmitted := false;
      pendingResets := pendingResets - 1;
    }
  }

  /** The user types the sample form into an empty one, field by field. */
  method FillSample(c: ContactForm)
    requires c.Valid() && c.formData == EmptyForm
    modifies c
    ensures c.Valid() && c.formData == SampleForm
    ensures c.isSubmitting == old(c.isSubmitting) && c.isSubmitted == old(c.isSubmitted)
    ensures c.pendingResets == old(c.pendingResets)
  {
    c.HandleInputChange(Name, SampleForm.name);
    c.HandleInputChange(Email, SampleForm.email);
    c.HandleInputChange(Service, SampleForm.service);
    c.HandleInputChange(Message, SampleForm.message);
    FieldsDetermineForm(c.formData, SampleForm);
  }

  /** Fill the sample form and submit it: (isSubmitting, isSubmitted) goes
      (false, false) -> (true, false) -> (false, true) -> (false, false),
      and the fields end up empty. */
  method SubmitRoundTrip() returns (trace: seq<(bool, bool)>, finalForm: FormData)
    ensures trace == [(false, false), (true, false), (false, true), (false, false)]
    ensures finalForm == EmptyForm
  {
    var c := new ContactForm();
    FillSample(c);
    SampleFormValid();
    var s0 := (c.isSubmitting, c.isSubmitted);
    c.HandleSubmit();
    assert c.errors == map[];
    var s1 := (c.isSubmitting, c.isSubmitted);
    c.SendResolved();
    var s2 := (c.isSubmitting, c.isSubmitted);
    c.ResetTimerFired();
    trace := [s0, s1, s2, (c.isSubmitting, c.isSubmitted)];
    finalForm := c.formData;
  }

  /** A sample form with the address "not-an-email" is refused with only
      the "Email is invalid" error and nothing starts. */
  method SubmitInvalidEmail() returns (errs: Errors, submitting: bool, data: FormData)
    ensures errs == map[Email := EmailInvalid]
    ensures !submitting
    ensures data == SampleForm.(email := "not-an-email")
  {
    var c := new ContactForm();
    c.HandleInputChange(Name, SampleForm.name);
    c.HandleInputChange(Email, "not-an-email");
    c.HandleInputChange(Service, SampleForm.service);
    c.HandleInputChange(Message, SampleForm.message);
    FieldsDetermineForm(c.formData, SampleForm.(email := "not-an-email"));
    InvalidEmailOnly();
    c.HandleSubmit();
    errs, submitting, data := c.errors, c.isSubmitting, c.formData;
  }

  /** Submitting the empty form sets four errors; typing into the name
      field then maps Name to "" rather than removing the key. */
  method SubmitEmptyThenType() returns (afterSubmit: Errors, afterTyping: Errors)
    ensures afterSubmit == map[Name := NameRequired, Email := EmailRequired,
                               Message := MessageRequired, Service := ServiceRequired]
    ensures afterTyping == afterSubmit[Name := ""]
    ensures Name in afterTyping && !HasError(afterTyping, Name)
  {
    var c := new ContactForm();
    EmptyFormErrors();
    c.HandleSubmit();
    afterSubmit := c.errors;
    c.HandleInputChange(Name, "J");
    afterTyping := c.errors;
  }

  /** Submitting again while the success banner is still up reaches a state
      with both flags set: a send in flight and the banner shown. */
  method ResubmitDuringBanner() returns (submitting: bool, submitted: bool)
    ensures submitting && submitted
  {
    var c := new ContactForm();
    FillSample(c);
    SampleFormValid();
    c.HandleSubmit();
    c.SendResolved();
    FillSample(c);
    c.HandleSubmit();
    submitting, submitted := c.isSubmitting, c.isSubmitted;
  }

  /** Two sends resolve before the first banner timer fires: that leftover
      timer hides the second banner while the second send's own timer is
      still pending. */
  method StaleTimerHidesBanner() returns (submitted: bool, ghost pending: nat)
    ensures !submitted && pending == 1
  {
    var c := new ContactForm();
    FillSample(c);
    SampleFormValid();
    c.HandleSubmit();
    c.SendResolved();
    FillSample(c);
    c.HandleSubmit();
    c.SendResolved();
    c.ResetTimerFired();
    submitted, pending := c.isSubmitted, c.pendingResets;
  }
}
