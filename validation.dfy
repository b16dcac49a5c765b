/** The validation orchestrator: validating one control, the blur and change
    gates, and the submit gate over a managed form. The document is replaced by
    plain objects: a Field per control and a Form per form element. */
module FormsValidation {
  import opened Decimal
  import opened Messages

  /** A form control. Its declared attributes do not change here; `validity` is
      the host's live constraint state, which this module only reads;
      `ariaInvalid` and `displayedErrors` (the content of the control's error
      container) are what validation writes. */
  class Field {
    const required: bool
    const controlType: string
    const inManagedForm: bool
    const attributes: Attributes
    var validity: Validity
    var ariaInvalid: bool
    var displayedErrors: seq<string>

    constructor (required: bool, controlType: string, inManagedForm: bool,
                 attributes: Attributes, validity: Validity)
      ensures this.required == required && this.controlType == controlType
      ensures this.inManagedForm == inManagedForm && this.attributes == attributes
      ensures this.validity == validity
      ensures !ariaInvalid && displayedErrors == []
    {
      this.required := required;
      this.controlType := controlType;
      this.inManagedForm := inManagedForm;
      this.attributes := attributes;
      this.validity := validity;
      ariaInvalid := false;
      displayedErrors := [];
    }

    /** The messages the control's current validity state calls for. */
    function ExpectedErrors(): seq<string>
      reads this`validity
    {
      CollectMessages(validity, attributes)
    }

    predicate Fails()
      reads this`validity
    {
      ExpectedErrors() != []
    }

    /** The control shows exactly its current messages and is marked invalid
        exactly when there is one. */
    predicate Reported()
      reads this
    {
      displayedErrors == ExpectedErrors() && ariaInvalid == Fails()
    }
  }

  /** A form element: whether it carries the managed-form marker, and its
      controls in document order. */
  class Form {
    const managed: bool
    const elements: seq<Field>

    constructor (managed: bool, elements: seq<Field>)
      ensures this.managed == managed && this.elements == elements
    {
      this.managed := managed;
      this.elements := elements;
    }
  }

  /** What a submit interaction ends with: whether the default submission is
      cancelled, and which control receives focus. */
  datatype SubmitOutcome = SubmitOutcome(prevented: bool, focus: Option<Field>)

  /** Replaces the content of the control's error container by the messages. */
  method ManageErrors(f: Field, messages: seq<string>)
    modifies f`displayedErrors
    ensures f.displayedErrors == messages
  {
    f.displayedErrors := messages;
  }

  method ValidateField(f: Field) returns (isValid: bool)
    modifies f`ariaInvalid, f`displayedErrors
    ensures f.displayedErrors == CollectMessages(f.validity, f.attributes)
    ensures isValid <==> f.displayedErrors == []
    ensures isValid <==> ViolationCount(f.validity) == 0
    ensures f.ariaInvalid == !isValid
    ensures f.Reported() && isValid == !f.Fails()
  {
    var errorMessages := CollectErrorMessages(f.validity, f.attributes);
    ManageErrors(f, errorMessages);
    isValid := |errorMessages| == 0;
    f.ariaInvalid := !isValid;
  }

  /** Blur validates only required controls inside a managed form. */
  predicate BlurApplies(target: Field)
  {
    target.required && target.inManagedForm
  }

  method OnBlur(target: Field)
    modifies target`ariaInvalid, target`displayedErrors
    ensures BlurApplies(target) ==> target.Reported()
    ensures !BlurApplies(target) ==> unchanged(target)
  {
    var isRequired := target.required;
    var isFormField := target.inManagedForm;
    if isFormField && isRequired {
      var _ := ValidateField(target);
    }
  }

  predicate IsToggleType(controlType: string)
  {
    controlType == "radio" || controlType == "checkbox"
  }

  /** Change validates only required radio buttons and checkboxes, wherever
      they are: managed-form membership is not consulted. */
  predicate ChangeApplies(target: Field)
  {
    IsToggleType(target.controlType) && target.required
  }

  method OnChange(target: Field)
    modifies target`ariaInvalid, target`displayedErrors
    ensures ChangeApplies(target) ==> target.Reported()
    ensures !ChangeApplies(target) ==> unchanged(target)
  {
    var isRequired := target.required;
    var isToggleType := IsToggleType(target.controlType);
    if isToggleType && isRequired {
      var _ := ValidateField(target);
    }
  }

  /** The required controls, in document order. */
  function RequiredOf(fs: seq<Field>): (r: seq<Field>)
    ensures forall i :: 0 <= i < |r| ==> r[i].required && r[i] in fs
    ensures forall i :: 0 <= i < |fs| && fs[i].required ==> fs[i] in r
    ensures |r| <= |fs|
  {
    if fs == [] then []
    else (if fs[0].required then [fs[0]] else []) + RequiredOf(fs[1..])
  }

  /** Filtering distributes over concatenation: with the one-element case this
      fixes the result as the required controls in document order, each as
      often as it occurs. */
  lemma {:induction false} RequiredOfAppend(a: seq<Field>, b: seq<Field>)
    ensures RequiredOf(a + b) == RequiredOf(a) + RequiredOf(b)
  {
    if a == [] {
      assert a + b == b;
    } else {
      assert (a + b)[0] == a[0];
      assert (a + b)[1..] == a[1..] + b;
      RequiredOfAppend(a[1..], b);
    }
  }

  lemma RequiredOfSingleton(f: Field)
    ensures RequiredOf([f]) == if f.required then [f] else []
  {
  }

  /** The document position of the first required control that fails. */
  function FirstFailingRequired(fs: seq<Field>): (r: Option<nat>)
    reads fs`validity
    ensures r.Some? ==>
      r.value < |fs| && fs[r.value].required && fs[r.value].Fails() &&
      forall j :: 0 <= j < r.value && fs[j].required ==> !fs[j].Fails()
    ensures r.None? ==> forall j :: 0 <= j < |fs| && fs[j].required ==> !fs[j].Fails()
  {
    if fs == [] then None
    else if fs[0].required && fs[0].Fails() then Some(0)
    else
      match FirstFailingRequired(fs[1..])
      case None => None
      case Some(k) => Some(k + 1)
  }

  /** The first failing entry of the required list is the control at the first
      failing required document position. */
  lemma {:induction false} FirstFailingOfRequired(fs: seq<Field>, k: nat)
    requires k < |RequiredOf(fs)| && RequiredOf(fs)[k].Fails()
    requires forall j :: 0 <= j < k ==> !RequiredOf(fs)[j].Fails()
    ensures FirstFailingRequired(fs).Some?
    ensures fs[FirstFailingRequired(fs).value] == RequiredOf(fs)[k]
  {
    var rs := RequiredOf(fs[1..]);
    if fs[0].required {
      assert RequiredOf(fs) == [fs[0]] + rs;
      if k > 0 {
        assert RequiredOf(fs)[0] == fs[0];
        assert !fs[0].Fails();
        forall j | 0 <= j < k - 1 ensures !rs[j].Fails() {
          assert rs[j] == RequiredOf(fs)[j + 1];
        }
        FirstFailingOfRequired(fs[1..], k - 1);
      }
    } else {
      assert RequiredOf(fs) == rs;
      FirstFailingOfRequired(fs[1..], k);
    }
  }

  method OnSubmit(form: Form) returns (outcome: SubmitOutcome)
    modifies form.elements`ariaInvalid, form.elements`displayedErrors
    ensures !form.managed ==> outcome == SubmitOutcome(false, None)
    ensures !form.managed ==> forall f :: f in form.elements ==> unchanged(f)
    ensures form.managed ==> forall f :: f in form.elements && f.required ==> f.Reported()
    ensures forall f :: f in form.elements && !f.required ==> unchanged(f)
    ensures outcome.prevented <==> form.managed && FirstFailingRequired(form.elements).Some?
    ensures outcome.focus ==
      if outcome.prevented then Some(form.elements[FirstFailingRequired(form.elements).value])
      else None
  {
    var isFormElement := form.managed;
    if !isFormElement {
      return SubmitOutcome(false, None);
    }

    var requiredControls := RequiredOf(form.elements);
    var isFormValid := true;
    var firstInvalid: Option<Field> := None;
    ghost var firstIndex: Option<nat> := None;

    for i := 0 to |requiredControls|
      invariant forall j :: 0 <= j < i ==> requiredControls[j].Reported()
      invariant forall f :: f in form.elements && f !in requiredControls[..i] ==> unchanged(f)
      invariant isFormValid <==> firstIndex.None?
      invariant firstIndex.None? ==>
        firstInvalid.None? && forall j :: 0 <= j < i ==> !requiredControls[j].Fails()
      invariant firstIndex.Some? ==>
        var k := firstIndex.value;
        k < i && firstInvalid == Some(requiredControls[k]) && requiredControls[k].Fails() &&
        forall j :: 0 <= j < k ==> !requiredControls[j].Fails()
    {
      var isFieldValid := ValidateField(requiredControls[i]);
      if !isFieldValid {
        isFormValid := false;
        if firstInvalid.None? {
          firstInvalid := Some(requiredControls[i]);
          firstIndex := Some(i);
        }
      }
    }

    assert requiredControls[..|requiredControls|] == requiredControls;
    if !isFormValid {
      FirstFailingOfRequired(form.elements, firstIndex.value);
      outcome := SubmitOutcome(true, firstInvalid);
    } else {
      outcome := SubmitOutcome(false, None);
    }
  }
}
