/** The three-step edit form: the step counter moved by the "next" and "back" buttons,
    the per-field form update, which buttons the footer shows, and the submit flow.
    The `onUpdate` callback is an oracle that resolves or rejects. */
module EditModal {
  import opened Records

  /** `totalSteps` */
  const TotalSteps: int := 3

  /** The form fields an input can name. */
  datatype Field = Title | Description | Date | Time | Photo

  /** The value of one form field. */
  function FieldValue(s: Seminar, f: Field): (value: string)
  {
    match f
    case Title => s.title
    case Description => s.description
    case Date => s.date
    case Time => s.time
    case Photo => s.photo
  }

  /** `{ ...prev, [name]: value }`: the named field set to `value`, every other field
      (and the id) left as it was. */
  function WithField(s: Seminar, f: Field, value: string): (r: Seminar)
    ensures FieldValue(r, f) == value
    ensures forall g :: g != f ==> FieldValue(r, g) == FieldValue(s, g)
    ensures r.id == s.id
  {
    match f
    case Title => s.(title := value)
    case Description => s.(description := value)
    case Date => s.(date := value)
    case Time => s.(time := value)
    case Photo => s.(photo := value)
  }

  /** Two records with the same id and the same field values are the same record. */
  lemma SameFieldsSameRecord(s: Seminar, t: Seminar)
    requires s.id == t.id
    requires forall f :: FieldValue(s, f) == FieldValue(t, f)
    ensures s == t
  {
    assert FieldValue(s, Title) == FieldValue(t, Title);
    assert FieldValue(s, Description) == FieldValue(t, Description);
    assert FieldValue(s, Date) == FieldValue(t, Date);
    assert FieldValue(s, Time) == FieldValue(t, Time);
    assert FieldValue(s, Photo) == FieldValue(t, Photo);
  }

  /** Typing a field's current value back in changes nothing; typing twice into the same
      field keeps the last value; edits of two different fields commute. */
  lemma FieldEditLaws(s: Seminar, f: Field, g: Field, v: string, w: string)
    ensures WithField(s, f, FieldValue(s, f)) == s
    ensures WithField(WithField(s, f, v), f, w) == WithField(s, f, w)
    ensures f != g ==> WithField(WithField(s, f, v), g, w) == WithField(WithField(s, g, w), f, v)
  {
    SameFieldsSameRecord(WithField(s, f, FieldValue(s, f)), s);
    SameFieldsSameRecord(WithField(WithField(s, f, v), f, w), WithField(s, f, w));
    if f != g {
      SameFieldsSameRecord(WithField(WithField(s, f, v), g, w), WithField(WithField(s, g, w), f, v));
    }
  }

  /** A press of the footer's "next" or "back" button. */
  datatype Nav = Forward | Backward

  /** The step after one press: `nextStep` moves up unless on the last step, `prevStep`
      moves down unless on the first. */
  function StepAfter(step: int, nav: Nav): (next: int)
    ensures 1 <= step <= TotalSteps ==> 1 <= next <= TotalSteps
    ensures nav.Forward? ==> step <= next <= step + 1
    ensures nav.Backward? ==> step - 1 <= next <= step
    ensures next == step <==> (nav.Forward? && step >= TotalSteps) || (nav.Backward? && step <= 1)
  {
    match nav
    case Forward => if step < TotalSteps then step + 1 else step
    case Backward => if step > 1 then step - 1 else step
  }

  /** The step after a whole sequence of presses. */
  function Navigate(step: int, navs: seq<Nav>): (final: int)
    decreases |navs|
  {
    if navs == [] then step else Navigate(StepAfter(step, navs[0]), navs[1..])
  }

  /** The number of "next" presses in `navs`. */
  function Forwards(navs: seq<Nav>): (n: nat)
    ensures n <= |navs|
    decreases |navs|
  {
    if navs == [] then 0 else (if navs[0].Forward? then 1 else 0) + Forwards(navs[1..])
  }

  /** No sequence of presses leaves the range of steps. */
  lemma {:induction false} NavigateStaysInRange(step: int, navs: seq<Nav>)
    requires 1 <= step <= TotalSteps
    ensures 1 <= Navigate(step, navs) <= TotalSteps
    decreases |navs|
  {
    if navs != [] {
      NavigateStaysInRange(StepAfter(step, navs[0]), navs[1..]);
    }
  }

  /** The step rises by at most one per "next" press, so from the first step the last
      step (the only one with a submit button) takes at least `TotalSteps - 1` of them. */
  lemma {:induction false} NavigateBoundedByForwards(step: int, navs: seq<Nav>)
    ensures Navigate(step, navs) <= step + Forwards(navs)
    ensures step == 1 && Navigate(step, navs) == TotalSteps ==> Forwards(navs) >= TotalSteps - 1
    decreases |navs|
  {
    if navs != [] {
      NavigateBoundedByForwards(StepAfter(step, navs[0]), navs[1..]);
    }
  }

  /** "back" undoes "next" below the last step, and "next" undoes "back" above the first. */
  lemma BackUndoesNext(step: int)
    ensures 1 <= step < TotalSteps ==> StepAfter(StepAfter(step, Forward), Backward) == step
    ensures 1 < step <= TotalSteps ==> StepAfter(StepAfter(step, Backward), Forward) == step
  {
  }

  /** The footer's main button. */
  datatype MainButton = NextButton | SubmitButton

  /** What the footer shows: a "back" button or not, the main button, and whether the
      buttons are enabled. */
  datatype Footer = Footer(back: bool, main: MainButton, enabled: bool)

  /** The footer for a step: "back" above the first step, "next" below the last step
      and the submit button otherwise; every button is disabled while submitting. */
  function FooterFor(step: int, isSubmitting: bool): (f: Footer)
    ensures f.back <==> step > 1
    ensures 1 <= step <= TotalSteps ==> (f.main == SubmitButton <==> step == TotalSteps)
    ensures f.enabled <==> !isSubmitting
  {
    Footer(step > 1, if step < TotalSteps then NextButton else SubmitButton, !isSubmitting)
  }

  /** The messages the form shows when a call fails. */
  datatype ModalError = SubmitFailed

  /** The form's state. `isOpen` is the dialog's visibility, which `onClose` turns off. */
  class EditSeminarModal {
    var isOpen: bool
    var formData: Seminar
    var isSubmitting: bool
    var error: Option<ModalError>
    var currentStep: int

    /** The step counter stays within the steps. */
    ghost predicate Valid()
      reads this
    {
      1 <= currentStep <= TotalSteps
    }

    /** The form for `seminar`: a copy of it, on the first step, idle, no error. */
    constructor (seminar: Seminar, isOpen: bool)
      ensures Valid()
      ensures formData == seminar && currentStep == 1
      ensures !isSubmitting && error == None && this.isOpen == isOpen
    {
      this.isOpen := isOpen;
      formData := seminar;
      isSubmitting := false;
      error := None;
      currentStep := 1;
    }

    /** `handleChange`: the input named `field` now holds `value`. */
    method HandleChange(field: Field, value: string)
      requires Valid()
      modifies this`formData
      ensures Valid()
      ensures formData == WithField(old(formData), field, value)
    {
      formData := WithField(formData, field, value);
    }

    /** `nextStep` */
    method NextStep()
      requires Valid()
      modifies this`currentStep
      ensures Valid()
      ensures currentStep == StepAfter(old(currentStep), Forward)
    {
      if currentStep < TotalSteps {
        currentStep := currentStep + 1;
      }
    }

    /** `prevStep` */
    method PrevStep()
      requires Valid()
      modifies this`currentStep
      ensures Valid()
      ensures currentStep == StepAfter(old(currentStep), Backward)
    {
      if currentStep > 1 {
        currentStep := currentStep - 1;
      }
    }

    /** Start of `handleSubmit`, before `onUpdate(formData)` is awaited: submitting, error
      cleared; `sent` is the record handed to `onUpdate`. */
    method BeginSubmit() returns (sent: Seminar)
      requires Valid()
      modifies this`isSubmitting, this`error
      ensures Valid()
      ensures isSubmitting && error == None
      ensures sent == formData
    {
      isSubmitting := true;
      error := None;
      sent := formData;
    }

    /** End of `handleSubmit`, once `onUpdate` resolved (`rejected` false) or rejected: on
      success the dialog closes and the step returns to 1, on failure the error is set and
      the step kept; submitting is off either way. */
    method EndSubmit(rejected: bool)
      requires Valid()
      modifies this`isOpen, this`currentStep, this`error, this`isSubmitting
      ensures Valid()
      ensures !isSubmitting
      ensures !rejected ==> !isOpen && currentStep == 1 && error == old(error)
      ensures rejected ==> isOpen == old(isOpen) && currentStep == old(currentStep) && error == Some(SubmitFailed)
    {
      if !rejected {
        isOpen := false;
        currentStep := 1;
      } else {
        error := Some(SubmitFailed);
      }
      isSubmitting := false;
    }

    /** `handleSubmit` as one step. */
    method HandleSubmit(rejected: bool) returns (sent: Seminar)
      requires Valid()
      modifies this`isOpen, this`currentStep, this`error, this`isSubmitting
      ensures Valid()
      ensures sent == formData == old(formData)
      ensures !isSubmitting
      ensures !rejected ==> !isOpen && currentStep == 1 && error == None
      ensures rejected ==> isOpen == old(isOpen) && currentStep == old(currentStep) && error == Some(SubmitFailed)
    {
      sent := BeginSubmit();
      EndSubmit(rejected);
    }
  }
}
