/** Scenarios written against the contracts alone: what a caller of the
    validation orchestrator can conclude without looking at its bodies. */
module Scenarios {
  import opened Decimal
  import opened Messages
  import opened FormsValidation

  const NoViolation := Validity(false, false, false, false, false, false, false, false, false, false)

  /** A required, empty text field loses focus inside a managed form, then a
      required checkbox outside any managed form is toggled. */
  method BlurAndChange()
  {
    var missing := NoViolation.(valueMissing := true);
    var name := new Field(true, "text", true, Attributes("", -1, -1), missing);
    OnBlur(name);
    CollectMessagesInTableOrder(missing, name.attributes);
    assert name.displayedErrors == [ValueMissingText];
    assert name.ariaInvalid;

    var optional := new Field(false, "text", true, Attributes("", -1, -1), missing);
    OnBlur(optional);
    OnChange(optional);
    assert optional.displayedErrors == [] && !optional.ariaInvalid;

    var consent := new Field(true, "checkbox", false, Attributes("", -1, -1), missing);
    OnBlur(consent);
    assert consent.displayedErrors == [];
    OnChange(consent);
    assert consent.displayedErrors == [ValueMissingText] && consent.ariaInvalid;
  }

  /** A value shorter than minLength = 5, validated twice in a row. */
  method TooShortTwice()
  {
    var short := NoViolation.(tooShort := true);
    var f := new Field(true, "text", true, Attributes("", 5, -1), short);
    var first := ValidateField(f);
    var shown := f.displayedErrors;
    var second := ValidateField(f);
    assert first == second && f.displayedErrors == shown;
    CollectMessagesInTableOrder(short, f.attributes);
    assert IntToString(5) == "5";
    assert shown == [TooShortPrefix + "5"];
    assert !first;
  }

  /** Submitting a managed form whose third and fourth controls (both
      required) fail; the second control is optional. */
  method SubmitFocusesFirstFailure()
  {
    var ok := new Field(true, "text", true, Attributes("", -1, -1), NoViolation);
    var note := new Field(false, "text", true, Attributes("", -1, -1), NoViolation.(tooLong := true));
    var email := new Field(true, "email", true, Attributes("", -1, -1), NoViolation.(valueMissing := true));
    var phone := new Field(true, "tel", true, Attributes("", -1, -1), NoViolation.(patternMismatch := true));
    var els := [ok, note, email, phone];
    var form := new Form(true, els);
    CollectMessagesEmptyIff(ok.validity, ok.attributes);
    CollectMessagesEmptyIff(email.validity, email.attributes);
    CollectMessagesEmptyIff(phone.validity, phone.attributes);
    assert !ok.Fails() && email.Fails() && phone.Fails();
    var outcome := OnSubmit(form);
    assert outcome.prevented;
    var first := FirstFailingRequired(els);
    assert first.value != 0 && first.value != 1;
    assert first == Some(2);
    assert outcome.focus == Some(email);
    assert phone in els && phone.Reported();
    assert phone.ariaInvalid;
    assert note in els && !note.required;
    assert note.displayedErrors == [] && !note.ariaInvalid;
  }

  /** A form without the managed-form marker is left to the host. */
  method SubmitUnmanaged()
  {
    var email := new Field(true, "email", true, Attributes("", -1, -1), NoViolation.(valueMissing := true));
    var plain := new Form(false, [email]);
    var outcome := OnSubmit(plain);
    assert !outcome.prevented && outcome.focus == None;
    assert email in plain.elements;
    assert email.displayedErrors == [] && !email.ariaInvalid;
  }
}
