/** The JSON boundary between the store and the browser: how the handlers'
  * rows reach the views and how the forms' payloads reach the handlers, and
  * what holds across it. Date rendering and parsing are parameters. */
module Wire {
  import opened Wrappers
  import opened Text
  import Store
  import C = ClientModels
  import MovieForm
  import ActorForm
  import SchedulesList
  import StoreProperties

  function MapOption<T, U>(o: Option<T>, f: T -> U): (r: Option<U>)
    ensures r.Some? <==> o.Some?
    ensures r.Some? ==> r.value == f(o.value)
  {
    match o
    case None => None
    case Some(v) => Some(f(v))
  }

  /** A stored movie as the client receives it; `dateText` writes a
    * `DateOnly` as "YYYY-MM-DD". */
  function MovieJson(m: Store.Movie, dateText: Store.DateOnly -> string): C.Movie {
    C.Movie(m.id, m.title, m.description, m.durationMinutes, MapOption(m.releaseDate, dateText))
  }

  /** A stored actor as the client receives it. */
  function ActorJson(a: Store.Actor, dateText: Store.DateOnly -> string): C.Actor {
    C.Actor(a.id, a.firstName, a.lastName, MapOption(a.birthDate, dateText))
  }

  /** A listed schedule as the client receives it; `dateTimeText` writes a
    * `DateTime` in ISO form. */
  function ScheduleJson(d: Store.ScheduleWithDetails, dateText: Store.DateOnly -> string,
                        dateTimeText: Store.DateTime -> string): C.ScheduleWithDetails
  {
    C.ScheduleWithDetails(
      d.schedule.id, d.schedule.movieId, d.schedule.actorId,
      dateTimeText(d.schedule.startsAt), d.schedule.location,
      MapOption(d.movie, (m: Store.Movie) => MovieJson(m, dateText)),
      MapOption(d.actor, (a: Store.Actor) => ActorJson(a, dateText)))
  }

  /** A movie payload as the handler binds it; `parseDate` reads "YYYY-MM-DD". */
  function MovieRequestJson(r: C.MovieRequest, parseDate: string -> Store.DateOnly): Store.MovieRequest {
    Store.MovieRequest(Some(r.title), r.description, r.durationMinutes, MapOption(r.releaseDate, parseDate))
  }

  /** An actor payload as the handler binds it. */
  function ActorRequestJson(r: C.ActorRequest, parseDate: string -> Store.DateOnly): Store.ActorRequest {
    Store.ActorRequest(Some(r.firstName), Some(r.lastName), MapOption(r.birthDate, parseDate))
  }

  /** A row joined with a stored movie and a stored actor is labelled with
    * the movie's title and the actor's "first last". */
  lemma RowLabelled(db: Store.Db, d: Store.ScheduleWithDetails, dateText: Store.DateOnly -> string,
                    dateTimeText: Store.DateTime -> string)
    requires Store.Consistent(db)
    requires d.schedule.movieId in db.movies && d.movie == Some(db.movies[d.schedule.movieId])
    requires d.schedule.actorId in db.actors && d.actor == Some(db.actors[d.schedule.actorId])
    ensures SchedulesList.MovieLabel(ScheduleJson(d, dateText, dateTimeText)) == db.movies[d.schedule.movieId].title
    ensures SchedulesList.ActorLabel(ScheduleJson(d, dateText, dateTimeText)) ==
      db.actors[d.schedule.actorId].firstName + " " + db.actors[d.schedule.actorId].lastName
  {
    assert Store.WellFormedActor(db.actors[d.schedule.actorId]);
    SchedulesList.ActorLabelOfStoredNames(ScheduleJson(d, dateText, dateTimeText));
  }

  /** The schedule list never falls back to '#id' for rows the server
    * listed: every label is the joined movie's title and the joined actor's
    * "first last". */
  lemma ListedSchedulesLabelled(db: Store.Db, dateText: Store.DateOnly -> string, dateTimeText: Store.DateTime -> string)
    requires Store.Consistent(db)
    ensures var rows := Store.ListSchedules(db).value;
      forall i :: 0 <= i < |rows| ==>
        && rows[i].schedule.movieId in db.movies && rows[i].schedule.actorId in db.actors
        && SchedulesList.MovieLabel(ScheduleJson(rows[i], dateText, dateTimeText)) == db.movies[rows[i].schedule.movieId].title
        && SchedulesList.ActorLabel(ScheduleJson(rows[i], dateText, dateTimeText)) ==
             db.actors[rows[i].schedule.actorId].firstName + " " + db.actors[rows[i].schedule.actorId].lastName
  {
    var rows := Store.ListSchedules(db).value;
    forall i | 0 <= i < |rows|
      ensures rows[i].schedule.movieId in db.movies && rows[i].schedule.actorId in db.actors
      ensures SchedulesList.MovieLabel(ScheduleJson(rows[i], dateText, dateTimeText)) == db.movies[rows[i].schedule.movieId].title
      ensures SchedulesList.ActorLabel(ScheduleJson(rows[i], dateText, dateTimeText)) ==
                db.actors[rows[i].schedule.actorId].firstName + " " + db.actors[rows[i].schedule.actorId].lastName
    {
      Store.ListedScheduleJoined(db, i);
      RowLabelled(db, rows[i], dateText, dateTimeText);
    }
  }

  /** The form's `required` validator accepts a title of spaces, its payload
    * trims it to '', and both movie handlers answer 400 "Title is required"
    * without touching the store. */
  lemma BlankTitlePassesFormNotServer(f: MovieForm.FormValue, db: Store.Db, id: int, parseDate: string -> Store.DateOnly)
    requires MovieForm.IsValid(f) && IsBlank(f.title)
    requires Store.Consistent(db)
    ensures MovieForm.Payload(f).Some? && MovieForm.Payload(f).value.title == []
    ensures var req := MovieRequestJson(MovieForm.Payload(f).value, parseDate);
      && Store.CreateMovie(db, req) == Store.Step(db, Store.BadRequest(Store.TitleRequired))
      && Store.UpdateMovie(db, id, req) == Store.Step(db, Store.BadRequest(Store.TitleRequired))
  {
    TrimEmptyIffBlank(f.title);
  }

  /** Such a form exists: three spaces and a duration of 120. */
  lemma BlankTitleFormExample()
    ensures MovieForm.IsValid(MovieForm.FormValue("   ", None, Some(120), None)) && IsBlank("   ")
  {
  }

  /** The form's payload for a movie in payload shape, as the handler
    * binds it, carries the movie's own fields. */
  lemma MoviePayloadJson(m: Store.Movie, dateText: Store.DateOnly -> string, parseDate: string -> Store.DateOnly)
    requires forall d :: parseDate(dateText(d)) == d
    requires MovieForm.InPayloadShape(MovieJson(m, dateText))
    ensures MovieForm.Payload(MovieForm.Prefill(MovieJson(m, dateText))).Some?
    ensures MovieRequestJson(MovieForm.Payload(MovieForm.Prefill(MovieJson(m, dateText))).value, parseDate) ==
      Store.MovieRequest(Some(m.title), m.description, m.durationMinutes, m.releaseDate)
  {
    var c := MovieJson(m, dateText);
    MovieForm.PrefillRoundTrip(c);
    if m.releaseDate.Some? {
      assert parseDate(dateText(m.releaseDate.value)) == m.releaseDate.value;
    }
  }

  /** Opening a stored movie in the edit form and saving it unchanged
    * stores the same movie, provided its description and release date are
    * already trimmed and non-empty (the form sends null for '', and trims). */
  lemma MovieEditRoundTrip(db: Store.Db, id: int, dateText: Store.DateOnly -> string, parseDate: string -> Store.DateOnly)
    requires Store.Consistent(db) && id in db.movies
    requires forall d :: parseDate(dateText(d)) == d
    requires MovieForm.InPayloadShape(MovieJson(db.movies[id], dateText))
    ensures MovieForm.Payload(MovieForm.Prefill(MovieJson(db.movies[id], dateText))).Some?
    ensures var payload := MovieForm.Payload(MovieForm.Prefill(MovieJson(db.movies[id], dateText))).value;
      Store.UpdateMovie(db, id, MovieRequestJson(payload, parseDate)) == Store.Step(db, Store.Ok(db.movies[id]))
  {
    MoviePayloadJson(db.movies[id], dateText, parseDate);
    StoreProperties.UnchangedMovieUpdate(db, id);
  }

  /** The form's payload for an actor in payload shape, as the handler
    * binds it, carries the actor's own fields. */
  lemma ActorPayloadJson(a: Store.Actor, dateText: Store.DateOnly -> string, parseDate: string -> Store.DateOnly)
    requires forall d :: parseDate(dateText(d)) == d
    requires ActorForm.InPayloadShape(ActorJson(a, dateText))
    ensures ActorForm.Payload(ActorForm.Prefill(ActorJson(a, dateText))).Some?
    ensures ActorRequestJson(ActorForm.Payload(ActorForm.Prefill(ActorJson(a, dateText))).value, parseDate) ==
      Store.ActorRequest(Some(a.firstName), Some(a.lastName), a.birthDate)
  {
    var c := ActorJson(a, dateText);
    ActorForm.PrefillRoundTrip(c);
    if a.birthDate.Some? {
      assert parseDate(dateText(a.birthDate.value)) == a.birthDate.value;
    }
  }

  /** Opening a stored actor in the edit form and saving it unchanged stores
    * the same actor, provided its birth date renders as trimmed non-empty text. */
  lemma ActorEditRoundTrip(db: Store.Db, id: int, dateText: Store.DateOnly -> string, parseDate: string -> Store.DateOnly)
    requires Store.Consistent(db) && id in db.actors
    requires forall d :: parseDate(dateText(d)) == d
    requires ActorForm.InPayloadShape(ActorJson(db.actors[id], dateText))
    ensures ActorForm.Payload(ActorForm.Prefill(ActorJson(db.actors[id], dateText))).Some?
    ensures var payload := ActorForm.Payload(ActorForm.Prefill(ActorJson(db.actors[id], dateText))).value;
      Store.UpdateActor(db, id, ActorRequestJson(payload, parseDate)) == Store.Step(db, Store.Ok(db.actors[id]))
  {
    ActorPayloadJson(db.actors[id], dateText, parseDate);
    StoreProperties.UnchangedActorUpdate(db, id);
  }
}
