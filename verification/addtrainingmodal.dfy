/** The add/edit training form: its values, the submit-time validation, the
    object it hands to the page, and the per-field error clearing. */
module AddTrainingModal {
  import opened Basics
  import opened Strings

  /** A form value as the inputs deliver it (`undefined` when never set). */
  datatype Value = Undefined | Text(text: string) | Flag(flag: bool) | Number(number: int)

  /** JavaScript truthiness of a form value. */
  predicate Present(v: Value) {
    match v
    case Undefined => false
    case Text(s) => s != ""
    case Flag(b) => b
    case Number(n) => n != 0
  }

  datatype Field =
    | Title | Description | StartDate | EndDate | Location | Instructor | Category
    | Type | Mandatory | TotalSeats | RegistrationDeadline | Level | Prerequisites | ImageUrl

  type Form = map<Field, Value>

  function Get(form: Form, f: Field): Value {
    if f in form then form[f] else Undefined
  }

  /** The blank form: in-person, optional, 30 seats, for all levels. */
  const InitialForm: Form := map[
    Title := Text(""), Description := Text(""), StartDate := Text(""), EndDate := Text(""),
    Location := Text(""), Instructor := Text(""), Category := Text(""), Type := Text("In-Person"),
    Mandatory := Flag(false), TotalSeats := Number(30), RegistrationDeadline := Text(""),
    Level := Text("All Levels"), Prerequisites := Text(""), ImageUrl := Text("")]

  const VirtualType: Value := Text("Virtual")

  /** The fields that must always be filled in, in the order they are checked. */
  const AlwaysRequired: seq<Field> := [Title, Description, StartDate, EndDate, Instructor, Category, RegistrationDeadline]

  /** A field is in error when it is required and empty; the location is
      required exactly when the session is not virtual. */
  predicate Missing(form: Form, f: Field) {
    if f == Location then Get(form, Type) != VirtualType && !Present(Get(form, Location))
    else f in AlwaysRequired && !Present(Get(form, f))
  }

  function AddIf(errors: set<Field>, f: Field, missing: bool): set<Field> {
    if missing then errors + {f} else errors
  }

  /** The checks of `handleSubmit`, one per field, in the source's order. */
  function Validate(form: Form): (errors: set<Field>)
    ensures forall f :: f in errors <==> Missing(form, f)
  {
    var e0: set<Field> := {};
    var e1 := AddIf(e0, Title, !Present(Get(form, Title)));
    var e2 := AddIf(e1, Description, !Present(Get(form, Description)));
    var e3 := AddIf(e2, StartDate, !Present(Get(form, StartDate)));
    var e4 := AddIf(e3, EndDate, !Present(Get(form, EndDate)));
    var e5 := AddIf(e4, Location, Get(form, Type) != VirtualType && !Present(Get(form, Location)));
    var e6 := AddIf(e5, Instructor, !Present(Get(form, Instructor)));
    var e7 := AddIf(e6, Category, !Present(Get(form, Category)));
    AddIf(e7, RegistrationDeadline, !Present(Get(form, RegistrationDeadline)))
  }

  /** The training being edited, as far as the submit handler reads it. */
  datatype EditTarget = EditTarget(id: Value, status: Value, attendees: Value)

  /** The object passed to `onTrainingChange`: every form value, plus the
      derived fields. */
  datatype Submitted = Submitted(
    form: Form,
    id: Value,
    status: Value,
    attendees: Value,
    capacity: Option<int>,
    isMandatory: Value,
    facilitatorName: Value,
    isVirtual: bool)

  /** `parseInt` applied to a form value (`None` stands for `NaN`). */
  function ParseValue(v: Value): (r: Option<int>)
    ensures v.Number? ==> r == Some(v.number)
    ensures v.Text? ==> r == ParseInt(v.text)
    ensures v.Undefined? || v.Flag? ==> r.None?
  {
    match v
    case Number(n) =>
      ParseIntRoundTrip(n);
      ParseInt(IntToString(n))
    case Text(s) => ParseInt(s)
    case Flag(b) => ParseInt(if b then "true" else "false")
    case Undefined => ParseInt("undefined")
  }

  /** `x || fallback` on a form value. */
  function OrElse(v: Value, fallback: Value): (r: Value)
    ensures Present(v) ==> r == v
    ensures !Present(v) ==> r == fallback
  {
    if Present(v) then v else fallback
  }

  /** `handleSubmit`. `draw` is `Math.floor(Math.random() * 1000)`, used for the id
      of a new training. Any validation error means nothing is submitted. */
  function Submit(form: Form, editing: Option<EditTarget>, draw: nat): (r: Result<Submitted, set<Field>>)
    requires draw < 1000
    ensures r.Err? <==> exists f :: Missing(form, f)
    ensures r.Err? ==> forall f :: f in r.error <==> Missing(form, f)
    ensures r.Ok? ==> r.value.form == form
    ensures r.Ok? && editing.Some? ==> r.value.id == editing.value.id
    ensures r.Ok? && editing.None? ==> r.value.id.Number? && 200 <= r.value.id.number < 1200
    ensures r.Ok? ==> (r.value.status ==
      if editing.Some? && Present(editing.value.status) then editing.value.status else Text("scheduled"))
    ensures r.Ok? ==> (r.value.attendees ==
      if editing.Some? && Present(editing.value.attendees) then editing.value.attendees else Number(0))
    ensures r.Ok? ==> (r.value.isVirtual <==> Get(form, Type) == VirtualType)
    ensures r.Ok? ==> r.value.isMandatory == Get(form, Mandatory) && r.value.facilitatorName == Get(form, Instructor)
    ensures r.Ok? && Get(form, TotalSeats).Number? ==> r.value.capacity == Some(Get(form, TotalSeats).number)
  {
    var errors := Validate(form);
    if errors != {} then
      Err(errors)
    else
      assert forall f :: !Missing(form, f) by {
        forall f ensures !Missing(form, f) {
          assert f !in errors;
        }
      }
      var statusIn := if editing.Some? then editing.value.status else Undefined;
      var attendeesIn := if editing.Some? then editing.value.attendees else Undefined;
      Ok(Submitted(
        form,
        if editing.Some? then editing.value.id else Number(draw + 200),
        OrElse(statusIn, Text("scheduled")),
        OrElse(attendeesIn, Number(0)),
        ParseValue(Get(form, TotalSeats)),
        Get(form, Mandatory),
        Get(form, Instructor),
        Get(form, Type) == VirtualType))
  }

  /** The untouched blank form is refused, with every always-required field in
      error and the location too (it is not virtual). */
  lemma InitialFormRefused(editing: Option<EditTarget>, draw: nat)
    requires draw < 1000
    ensures Submit(InitialForm, editing, draw).Err?
    ensures forall f :: f in AlwaysRequired ==> f in Submit(InitialForm, editing, draw).error
    ensures Location in Submit(InitialForm, editing, draw).error
  {
    forall f | f in AlwaysRequired || f == Location ensures Missing(InitialForm, f) {
      assert Get(InitialForm, f) == Text("");
    }
    assert Missing(InitialForm, Title);
  }

  /** The errors shown next to the fields; `None` is a cleared (`null`) entry. */
  type Errors = map<Field, Option<string>>

  predicate ShowsError(errors: Errors, f: Field) {
    f in errors && Truthy(errors[f])
  }

  /** `handleChange` for field `name`: stores the new value and clears that
      field's error, if it shows one. */
  function Change(form: Form, errors: Errors, name: Field, value: Value): (r: (Form, Errors))
    ensures Get(r.0, name) == value
    ensures forall f :: f != name ==> Get(r.0, f) == Get(form, f)
    ensures !ShowsError(r.1, name)
    ensures forall f :: f != name ==> (f in r.1 <==> f in errors) && (f in errors ==> r.1[f] == errors[f])
    ensures !ShowsError(errors, name) ==> r.1 == errors
  {
    var form' := form[name := value];
    if ShowsError(errors, name) then (form', errors[name := None]) else (form', errors)
  }

  /** Filling in a missing field removes that field, and only that field, from
      the errors found at the next submit. */
  lemma FillingAFieldFixesIt(form: Form, errors: Errors, name: Field, value: Value)
    requires name in AlwaysRequired && Present(value)
    ensures var form' := Change(form, errors, name, value).0;
      forall f :: f != name ==> (Missing(form', f) <==> Missing(form, f))
    ensures !Missing(Change(form, errors, name, value).0, name)
  {
  }
}
