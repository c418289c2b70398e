/** features/schedules/schedule-form.component.ts: the create/edit form for a
  * screening schedule, with the movie and actor lookups its selects offer. */
module ScheduleForm {
  import opened Wrappers
  import opened Text
  import opened Client
  import opened ClientModels

  /** The form controls' values: the selected movie and actor ids (null until
    * chosen), the `datetime-local` start and the location (can hold null). */
  datatype FormValue = FormValue(movieId: Option<int>, actorId: Option<int>, startsAt: string, location: Option<string>)

  /** The controls as the form group creates them. */
  const Initial := FormValue(None, None, "", Some(""))

  /** Movie, actor and start are `required`. */
  predicate IsValid(f: FormValue) {
    f.movieId.Some? && f.actorId.Some? && f.startsAt != []
  }

  /** `fromDatetimeLocalToApiIso`: a `YYYY-MM-DDTHH:mm` value (16 characters)
    * gets ":00" seconds; any other value is sent as it is. */
  function ToApiIso(v: string): (r: string)
    ensures |v| == 16 ==> r == v + ":00"
    ensures |v| != 16 ==> r == v
  {
    if |v| == 16 then v + ":00" else v
  }

  /** Padding twice is padding once, and no result is 16 characters long. */
  lemma ToApiIsoIdempotent(v: string)
    ensures ToApiIso(ToApiIso(v)) == ToApiIso(v)
    ensures |ToApiIso(v)| != 16
  {
  }

  /** The payload `onSubmit` sends, None when it returns early: the ids as
    * selected, the start with seconds, the location trimmed or null when blank. */
  function Payload(f: FormValue): (p: Option<ScheduleRequest>)
    ensures p.Some? <==> IsValid(f)
    ensures p.Some? ==> Some(p.value.movieId) == f.movieId && Some(p.value.actorId) == f.actorId
    ensures p.Some? ==> p.value.startsAt == ToApiIso(f.startsAt) && p.value.location == OptionalText(f.location)
  {
    if !IsValid(f) then None
    else match (f.movieId, f.actorId)
      case (Some(movieId), Some(actorId)) =>
        Some(ScheduleRequest(movieId, actorId, ToApiIso(f.startsAt), OptionalText(f.location)))
      case _ => None
  }

  /** The `movieId === null || actorId === null` check after the validity
    * check never fires: a valid form has both ids. */
  lemma NullIdIsInvalid(f: FormValue)
    requires f.movieId.None? || f.actorId.None?
    ensures !IsValid(f) && Payload(f).None?
  {
  }

  /** `loadLookups`' `patchValue` from the schedule handed over by the list;
    * `toDatetimeLocal` renders the start in the browser's time zone. */
  function Prefill(s: ScheduleWithDetails, toDatetimeLocal: string -> string): (f: FormValue)
    ensures f.movieId == Some(s.movieId) && f.actorId == Some(s.actorId)
    ensures f.startsAt == toDatetimeLocal(s.startsAt) && f.location == Some(s.location.GetOr(""))
  {
    FormValue(Some(s.movieId), Some(s.actorId), toDatetimeLocal(s.startsAt), Some(s.location.GetOr("")))
  }

  /** Editing a schedule and saving it without changes sends its ids and
    * location back, and the start as `toDatetimeLocal` rendered it to the
    * second (its `YYYY-MM-DDTHH:mm:ss` form is 19 characters, so nothing is
    * padded). */
  lemma PrefillRoundTrip(s: ScheduleWithDetails, toDatetimeLocal: string -> string)
    requires |toDatetimeLocal(s.startsAt)| == 19
    requires s.location.Some? ==> s.location.value != [] && IsTrimmed(s.location.value)
    ensures Payload(Prefill(s, toDatetimeLocal)) ==
      Some(ScheduleRequest(s.movieId, s.actorId, toDatetimeLocal(s.startsAt), s.location))
  {
    var f := Prefill(s, toDatetimeLocal);
    assert IsValid(f);
    OptionalTextOfPrefill(s.location);
  }

  /** The component's state: the parsed id, the lookups for the two selects
    * and the form. */
  class ScheduleFormView {
    var isEdit: bool
    var saving: bool
    var error: Option<string>
    var id: Option<JsNumber>
    var movies: seq<Movie>
    var actors: seq<Actor>
    var loadingLookups: bool
    var form: FormValue

    /** `isEdit` agrees with the id it was computed from. */
    ghost predicate Valid()
      reads this
    {
      isEdit == IsEditMode(id)
    }

    /** Reads the route's id parameter, then loads the lookups and prefills
      * the form. */
    constructor (idParam: Option<string>, toNumber: string -> JsNumber,
                 moviesResponse: Fetch<seq<Movie>>, actorsResponse: Fetch<seq<Actor>>,
                 stateSchedule: Option<ScheduleWithDetails>, toDatetimeLocal: string -> string)
      ensures Valid()
      ensures id == RouteId(idParam, toNumber) && !saving && error.None?
      ensures movies == ListOrEmpty(moviesResponse) && actors == ListOrEmpty(actorsResponse) && !loadingLookups
      ensures form == (if isEdit && stateSchedule.Some? then Prefill(stateSchedule.value, toDatetimeLocal) else Initial)
    {
      saving := false;
      error := None;
      id := RouteId(idParam, toNumber);
      isEdit := IsEditMode(RouteId(idParam, toNumber));
      movies := [];
      actors := [];
      loadingLookups := false;
      form := Initial;
      new;
      LoadLookups(moviesResponse, actorsResponse, stateSchedule, toDatetimeLocal);
    }

    /** `loadLookups`: a failed lookup gives an empty list for that select
      * only; loading ends false; in edit mode with a schedule in the
      * navigation state the form is prefilled from it. */
    method LoadLookups(moviesResponse: Fetch<seq<Movie>>, actorsResponse: Fetch<seq<Actor>>,
                       stateSchedule: Option<ScheduleWithDetails>, toDatetimeLocal: string -> string)
      requires Valid()
      modifies this
      ensures Valid()
      ensures isEdit == old(isEdit) && id == old(id) && saving == old(saving) && error.None?
      ensures movies == ListOrEmpty(moviesResponse) && actors == ListOrEmpty(actorsResponse) && !loadingLookups
      ensures form == (if isEdit && stateSchedule.Some? then Prefill(stateSchedule.value, toDatetimeLocal) else old(form))
    {
      loadingLookups := true;
      error := None;
      movies := ListOrEmpty(moviesResponse);
      actors := ListOrEmpty(actorsResponse);
      loadingLookups := false;
      if isEdit && stateSchedule.Some? {
        form := Prefill(stateSchedule.value, toDatetimeLocal);
      }
    }

    /** The form controls' bindings: the user edits the values. */
    method Input(v: FormValue)
      requires Valid()
      modifies this
      ensures Valid()
      ensures form == v && isEdit == old(isEdit) && id == old(id) && saving == old(saving) && error == old(error)
      ensures movies == old(movies) && actors == old(actors) && loadingLookups == old(loadingLookups)
    {
      form := v;
    }

    /** `onSubmit`: clears the error; sends nothing when the form is invalid
      * or an id is null; otherwise sends the payload (update in edit mode,
      * create otherwise) and navigates to the list on success, or ends
      * saving and shows the save error on failure. */
    method OnSubmit(saveOk: bool) returns (sent: Option<SaveRequest<ScheduleRequest>>, navigateTo: Option<string>)
      requires Valid()
      modifies this
      ensures Valid()
      ensures form == old(form) && isEdit == old(isEdit) && id == old(id)
      ensures movies == old(movies) && actors == old(actors) && loadingLookups == old(loadingLookups)
      ensures sent.None? <==> Payload(form).None?
      ensures sent.Some? ==> sent.value == ChooseRequest(isEdit, id, Payload(form).value)
      ensures sent.None? ==> navigateTo.None? && saving == old(saving) && error.None?
      ensures sent.Some? && saveOk ==> navigateTo == Some("/schedules") && saving && error.None?
      ensures sent.Some? && !saveOk ==> navigateTo.None? && !saving && error == Some(SaveFailed)
    {
      error := None;
      navigateTo := None;
      if !IsValid(form) {
        return None, None;
      }
      var movieId := form.movieId;
      var actorId := form.actorId;
      if movieId.None? || actorId.None? {
        return None, None;
      }
      var payload := ScheduleRequest(movieId.value, actorId.value, ToApiIso(form.startsAt), OptionalText(form.location));
      saving := true;
      sent := Some(ChooseRequest(isEdit, id, payload));
      if saveOk {
        navigateTo := Some("/schedules");
      } else {
        saving := false;
        error := Some(SaveFailed);
      }
    }
  }
}
