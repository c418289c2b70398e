/** features/movies/movie-form.component.ts: the create/edit form for a movie. */
module MovieForm {
  import opened Wrappers
  import opened Text
  import opened Client
  import opened ClientModels

  /** The form controls' values. The title control is non-nullable; the
    * description and release date controls can hold null; the duration is
    * null until entered. */
  datatype FormValue = FormValue(
    title: string,
    description: Option<string>,
    durationMinutes: Option<int>,
    releaseDate: Option<string>)

  /** The controls as the form group creates them. */
  const Initial := FormValue("", Some(""), None, Some(""))

  /** The validators: the title is `required` (non-empty; `minLength(1)` adds
    * nothing), the duration `required` (non-null) and `min(0)`. */
  predicate IsValid(f: FormValue) {
    f.title != [] && f.durationMinutes.Some? && f.durationMinutes.value >= 0
  }

  /** The payload `onSubmit` sends, None when it returns early: the title
    * trimmed, the duration as entered, the description and release date
    * trimmed or null when blank. */
  function Payload(f: FormValue): (p: Option<MovieRequest>)
    ensures p.Some? <==> IsValid(f)
    ensures p.Some? ==> p.value.title == Trim(f.title) && Some(p.value.durationMinutes) == f.durationMinutes
    ensures p.Some? ==> p.value.description == OptionalText(f.description) && p.value.releaseDate == OptionalText(f.releaseDate)
    ensures p.Some? ==> p.value.durationMinutes >= 0
  {
    if !IsValid(f) then None
    else match f.durationMinutes
      case None => None
      case Some(duration) =>
        Some(MovieRequest(Trim(f.title), OptionalText(f.description), duration, OptionalText(f.releaseDate)))
  }

  /** The `duration === null` check after the validity check never fires: a
    * valid form has a duration. */
  lemma NullDurationIsInvalid(f: FormValue)
    requires f.durationMinutes.None?
    ensures !IsValid(f) && Payload(f).None?
  {
  }

  /** The constructor's `patchValue` from the movie handed over by the list:
    * null description and release date become ''. */
  function Prefill(m: Movie): (f: FormValue)
    ensures f.title == m.title && f.durationMinutes == Some(m.durationMinutes)
    ensures f.description == Some(m.description.GetOr("")) && f.releaseDate == Some(m.releaseDate.GetOr(""))
  {
    FormValue(m.title, Some(m.description.GetOr("")), Some(m.durationMinutes), Some(m.releaseDate.GetOr("")))
  }

  /** A movie in the shape the server stores and the form sends (non-empty
    * trimmed title, duration at least 0, text fields trimmed and non-empty
    * or null) reaches the form's submit unchanged. */
  predicate InPayloadShape(m: Movie) {
    && m.title != [] && IsTrimmed(m.title)
    && m.durationMinutes >= 0
    && (m.description.Some? ==> m.description.value != [] && IsTrimmed(m.description.value))
    && (m.releaseDate.Some? ==> m.releaseDate.value != [] && IsTrimmed(m.releaseDate.value))
  }

  /** Editing a movie in payload shape and saving it without changes sends
    * its own values back. */
  lemma PrefillRoundTrip(m: Movie)
    requires InPayloadShape(m)
    ensures Payload(Prefill(m)) == Some(MovieRequest(m.title, m.description, m.durationMinutes, m.releaseDate))
  {
    var f := Prefill(m);
    assert IsValid(f);
    var p := Payload(f).value;
    assert p.title == m.title by { TrimOfTrimmed(m.title); }
    assert p.description == m.description by { OptionalTextOfPrefill(m.description); }
    assert p.releaseDate == m.releaseDate by { OptionalTextOfPrefill(m.releaseDate); }
  }

  /** The component's state. `id` is the parsed route parameter. */
  class MovieFormView {
    var isEdit: bool
    var saving: bool
    var error: Option<string>
    var id: Option<JsNumber>
    var form: FormValue

    /** `isEdit` agrees with the id it was computed from. */
    ghost predicate Valid()
      reads this
    {
      isEdit == IsEditMode(id)
    }

    /** Reads the route's id parameter and, in edit mode with a movie in the
      * navigation state, prefills the form from it. */
    constructor (idParam: Option<string>, toNumber: string -> JsNumber, stateMovie: Option<Movie>)
      ensures Valid()
      ensures id == RouteId(idParam, toNumber) && !saving && error.None?
      ensures form == (if isEdit && stateMovie.Some? then Prefill(stateMovie.value) else Initial)
    {
      saving := false;
      error := None;
      id := RouteId(idParam, toNumber);
      isEdit := IsEditMode(RouteId(idParam, toNumber));
      form := Initial;
      new;
      if isEdit && stateMovie.Some? {
        form := Prefill(stateMovie.value);
      }
    }

    /** The form controls' bindings: the user edits the values. */
    method Input(v: FormValue)
      requires Valid()
      modifies this
      ensures Valid()
      ensures form == v && isEdit == old(isEdit) && id == old(id) && saving == old(saving) && error == old(error)
    {
      form := v;
    }

    /** `onSubmit`: clears the error; sends nothing when the form is invalid;
      * otherwise sends the payload (update in edit mode, create otherwise)
      * and navigates to the list on success, or ends saving and shows the
      * save error on failure. */
    method OnSubmit(saveOk: bool) returns (sent: Option<SaveRequest<MovieRequest>>, navigateTo: Option<string>)
      requires Valid()
      modifies this
      ensures Valid()
      ensures form == old(form) && isEdit == old(isEdit) && id == old(id)
      ensures sent.None? <==> Payload(form).None?
      ensures sent.Some? ==> sent.value == ChooseRequest(isEdit, id, Payload(form).value)
      ensures sent.None? ==> navigateTo.None? && saving == old(saving) && error.None?
      ensures sent.Some? && saveOk ==> navigateTo == Some("/movies") && saving && error.None?
      ensures sent.Some? && !saveOk ==> navigateTo.None? && !saving && error == Some(SaveFailed)
    {
      error := None;
      navigateTo := None;
      if !IsValid(form) {
        return None, None;
      }
      var duration := form.durationMinutes;
      if duration.None? {
        return None, None;
      }
      var payload := MovieRequest(Trim(form.title), OptionalText(form.description), duration.value, OptionalText(form.releaseDate));
      saving := true;
      sent := Some(ChooseRequest(isEdit, id, payload));
      if saveOk {
        navigateTo := Some("/movies");
      } else {
        saving := false;
        error := Some(SaveFailed);
      }
    }
  }
}
