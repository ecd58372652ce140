/**
  The five-step event sign-up page: name, phone, carrier, region and device,
  one per step. The page's state is a record; every handler is a function
  from the state (and the input) to the next state.
*/
module EventForm {
  import opened Wrappers
  import opened Text
  import FormCheck

  const LastStep := 5

  const Carriers: seq<string> := ["KT", "SKT", "U+"]

  datatype Form = Form(
    step: int,
    name: string,
    phone: string,
    phoneError: Option<FormCheck.PhoneError>,
    carrier: string,
    region: string,
    isManualRegion: bool,
    device: string)

  const Initial := Form(1, "", "", None, "", "", false, "")

  predicate StepInRange(f: Form) {
    1 <= f.step <= LastStep
  }

  /** `isStepValid`: the field the current step asks for is filled in acceptably. */
  predicate IsStepValid(f: Form) {
    if f.step == 1 then f.name != ""
    else if f.step == 2 then f.phone != "" && |f.phone| == 13 && f.phoneError.None?
    else if f.step == 3 then f.carrier != ""
    else if f.step == 4 then f.region != ""
    else if f.step == 5 then f.device != ""
    else false
  }

  /** `isComplete` */
  predicate IsComplete(f: Form) {
    f.name != "" && f.phone != "" && f.carrier != "" && f.region != "" && f.device != ""
  }

  /** The state after `handleNext`, and whether the application was submitted. */
  function HandleNext(f: Form): (r: (Form, bool))
    ensures !IsStepValid(f) ==> r == (f, false)
    ensures IsStepValid(f) && f.step < LastStep ==> r == (f.(step := f.step + 1), false)
    ensures f.step >= LastStep ==> r.0 == f
    ensures r.1 <==> IsStepValid(f) && f.step == LastStep && IsComplete(f)
    ensures StepInRange(f) ==> StepInRange(r.0)
  {
    if !IsStepValid(f) then (f, false)
    else if f.step < LastStep then (f.(step := f.step + 1), false)
    else if f.step == LastStep && IsComplete(f) then (f, true)
    else (f, false)
  }

  /** `handlePrev` */
  function HandlePrev(f: Form): (r: Form)
    ensures f.step > 1 ==> r == f.(step := f.step - 1)
    ensures f.step <= 1 ==> r == f
    ensures StepInRange(f) ==> StepInRange(r)
  {
    if f.step > 1 then f.(step := f.step - 1) else f
  }

  /**
    The phone field's `onChange`: the input is stored formatted, and its error
    is recomputed once the formatted number is complete and cleared before.
  */
  function PhoneChange(f: Form, input: string): (r: Form)
    ensures r.phone == FormCheck.FormatPhoneNumber(input)
    ensures |r.phone| == 13 ==> r.phoneError == FormCheck.ValidatePhoneNumber(r.phone)
    ensures |r.phone| != 13 ==> r.phoneError.None?
    ensures r == f.(phone := r.phone, phoneError := r.phoneError)
  {
    var formatted := FormCheck.FormatPhoneNumber(input);
    f.(phone := formatted,
       phoneError := if |formatted| == 13 then FormCheck.ValidatePhoneNumber(formatted) else None)
  }

  /** The phone field's `onBlur`: validate whatever is there, unless it is empty. */
  function PhoneBlur(f: Form): (r: Form)
    ensures f.phone != "" ==> r == f.(phoneError := FormCheck.ValidatePhoneNumber(f.phone))
    ensures f.phone == "" ==> r == f
  {
    if f.phone != "" then f.(phoneError := FormCheck.ValidatePhoneNumber(f.phone)) else f
  }

  /** Switching between the region list and free text clears the region. */
  function ToggleManualRegion(f: Form): (r: Form)
    ensures r.isManualRegion == !f.isManualRegion && r.region == ""
    ensures r == f.(isManualRegion := r.isManualRegion, region := "")
  {
    f.(isManualRegion := !f.isManualRegion, region := "")
  }

  /** What the user can do on the page. */
  datatype Event =
    | Next
    | Prev
    | TypeName(name: string)
    | TypePhone(input: string)
    | BlurPhone
    | ChooseCarrier(carrier: string)
    | ChooseRegion(region: string)
    | ToggleRegionMode
    | TypeDevice(device: string)

  function Apply(f: Form, e: Event): Form {
    match e
    case Next => HandleNext(f).0
    case Prev => HandlePrev(f)
    case TypeName(n) => f.(name := n)
    case TypePhone(input) => PhoneChange(f, input)
    case BlurPhone => PhoneBlur(f)
    case ChooseCarrier(c) => f.(carrier := c)
    case ChooseRegion(r) => f.(region := r)
    case ToggleRegionMode => ToggleManualRegion(f)
    case TypeDevice(d) => f.(device := d)
  }

  function Replay(f: Form, events: seq<Event>): Form
    decreases |events|
  {
    if |events| == 0 then f else Replay(Apply(f, events[0]), events[1..])
  }

  /** Whatever the user does, the step stays between 1 and 5. */
  lemma {:induction false} StepStaysInRange(f: Form, events: seq<Event>)
    requires StepInRange(f)
    ensures StepInRange(Replay(f, events))
    decreases |events|
  {
    if |events| > 0 {
      StepStaysInRange(Apply(f, events[0]), events[1..]);
    }
  }

  /**
    After typing into the phone field, step 2 accepts exactly the inputs
    whose first eleven digits start with 010.
  */
  lemma PhoneStepAccepts(f: Form, input: string)
    requires f.step == 2
    ensures IsStepValid(PhoneChange(f, input)) <==>
      |Digits(input)| >= 11 && StartsWith(Digits(input)[..11], "010")
  {
    var formatted := FormCheck.FormatPhoneNumber(input);
    if |formatted| == 13 {
      FormCheck.FormattedPhoneValid(input);
    }
  }

  /** A step is never skipped: submitting needs each field to be non-empty. */
  lemma SubmitNeedsEveryField(f: Form)
    requires HandleNext(f).1
    ensures f.step == LastStep && f.name != "" && f.phone != "" && f.carrier != ""
    ensures f.region != "" && f.device != ""
  {
  }
}
