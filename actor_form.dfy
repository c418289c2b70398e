/** features/actors/actor-form.component.ts: the create/edit form for an actor. */
module ActorForm {
  import opened Wrappers
  import opened Text
  import opened Client
  import opened ClientModels

  /** The form controls' values; the birth date control can hold null. */
  datatype FormValue = FormValue(firstName: string, lastName: string, birthDate: Option<string>)

  /** The controls as the form group creates them. */
  const Initial := FormValue("", "", Some(""))

  /** Both names are `required` (non-empty; `minLength(1)` adds nothing). */
  predicate IsValid(f: FormValue) {
    f.firstName != [] && f.lastName != []
  }

  /** The payload `onSubmit` sends, None when the form is invalid: both names
    * trimmed, the birth date trimmed or null when blank. */
  function Payload(f: FormValue): (p: Option<ActorRequest>)
    ensures p.Some? <==> IsValid(f)
    ensures p.Some? ==> p.value.firstName == Trim(f.firstName) && p.value.lastName == Trim(f.lastName)
    ensures p.Some? ==> p.value.birthDate == OptionalText(f.birthDate)
  {
    if !IsValid(f) then None
    else Some(ActorRequest(Trim(f.firstName), Trim(f.lastName), OptionalText(f.birthDate)))
  }

  /** The constructor's `patchValue` from the actor handed over by the list:
    * a null birth date becomes ''. */
  function Prefill(a: Actor): (f: FormValue)
    ensures f.firstName == a.firstName && f.lastName == a.lastName
    ensures f.birthDate == Some(a.birthDate.GetOr(""))
  {
    FormValue(a.firstName, a.lastName, Some(a.birthDate.GetOr("")))
  }

  /** An actor in the shape the server stores and the form sends: non-empty
    * trimmed names, a birth date trimmed and non-empty or null. */
  predicate InPayloadShape(a: Actor) {
    && a.firstName != [] && IsTrimmed(a.firstName)
    && a.lastName != [] && IsTrimmed(a.lastName)
    && (a.birthDate.Some? ==> a.birthDate.value != [] && IsTrimmed(a.birthDate.value))
  }

  /** Editing an actor in payload shape and saving it without changes sends
    * its own values back. */
  lemma PrefillRoundTrip(a: Actor)
    requires InPayloadShape(a)
    ensures Payload(Prefill(a)) == Some(ActorRequest(a.firstName, a.lastName, a.birthDate))
  {
    var f := Prefill(a);
    assert IsValid(f);
    var p := Payload(f).value;
    assert p.firstName == a.firstName by { TrimOfTrimmed(a.firstName); }
    assert p.lastName == a.lastName by { TrimOfTrimmed(a.lastName); }
    assert p.birthDate == a.birthDate by { OptionalTextOfPrefill(a.birthDate); }
  }

  /** The component's state. `id` is the parsed route parameter. */
  class ActorFormView {
    var isEdit: bool
    var saving: bool
    var error: Option<string>
    var id: Option<JsNumber>
    var form: FormValue

    /** `isEdit` agrees with the id it was computed from. */
    ghost predicate Valid()
      reads this
    {
      isEdit == IsEditMode(id)
    }

    /** Reads the route's id parameter and, in edit mode with an actor in the
      * navigation state, prefills the form from it. */
    constructor (idParam: Option<string>, toNumber: string -> JsNumber, stateActor: Option<Actor>)
      ensures Valid()
      ensures id == RouteId(idParam, toNumber) && !saving && error.None?
      ensures form == (if isEdit && stateActor.Some? then Prefill(stateActor.value) else Initial)
    {
      saving := false;
      error := None;
      id := RouteId(idParam, toNumber);
      isEdit := IsEditMode(RouteId(idParam, toNumber));
      form := Initial;
      new;
      if isEdit && stateActor.Some? {
        form := Prefill(stateActor.value);
      }
    }

    /** The form controls' bindings: the user edits the values. */
    method Input(v: FormValue)
      requires Valid()
      modifies this
      ensures Valid()
      ensures form == v && isEdit == old(isEdit) && id == old(id) && saving == old(saving) && error == old(error)
    {
      form := v;
    }

    /** `onSubmit`: clears the error; sends nothing when the form is invalid;
      * otherwise sends the payload (update in edit mode, create otherwise)
      * and navigates to the list on success, or ends saving and shows the
      * save error on failure. */
    method OnSubmit(saveOk: bool) returns (sent: Option<SaveRequest<ActorRequest>>, navigateTo: Option<string>)
      requires Valid()
      modifies this
      ensures Valid()
      ensures form == old(form) && isEdit == old(isEdit) && id == old(id)
      ensures sent.None? <==> Payload(form).None?
      ensures sent.Some? ==> sent.value == ChooseRequest(isEdit, id, Payload(form).value)
      ensures sent.None? ==> navigateTo.None? && saving == old(saving) && error.None?
      ensures sent.Some? && saveOk ==> navigateTo == Some("/actors") && saving && error.None?
      ensures sent.Some? && !saveOk ==> navigateTo.None? && !saving && error == Some(SaveFailed)
    {
      error := None;
      navigateTo := None;
      if !IsValid(form) {
        return None, None;
      }
      var payload := ActorRequest(Trim(form.firstName), Trim(form.lastName), OptionalText(form.birthDate));
      saving := true;
      sent := Some(ChooseRequest(isEdit, id, payload));
      if saveOk {
        navigateTo := Some("/actors");
      } else {
        saving := false;
        error := Some(SaveFailed);
      }
    }
  }
}
