/** The record store behind the `/api/v1` endpoints: the movie, actor and
  * screening-schedule tables, the validation each handler performs before it
  * touches them, and the cascade delete configured on the schedule table's
  * two foreign keys. Each handler is a function from the store before the
  * request to the store after it and the HTTP result. */
module Store {
  import opened Wrappers
  import opened Text
  import Seqs

  /** Stands in for `System.DateOnly`: an opaque calendar day. */
  datatype DateOnly = DateOnly(dayNumber: nat)

  /** Stands in for `System.DateTime`; zero ticks is `default(DateTime)`. */
  datatype DateTime = DateTime(ticks: nat)

  const DefaultDateTime: DateTime := DateTime(0)

  datatype Movie = Movie(
    id: int,
    title: string,
    description: Option<string>,
    durationMinutes: int,
    releaseDate: Option<DateOnly>)

  datatype Actor = Actor(
    id: int,
    firstName: string,
    lastName: string,
    birthDate: Option<DateOnly>)

  datatype Schedule = Schedule(
    id: int,
    movieId: int,
    actorId: int,
    startsAt: DateTime,
    location: Option<string>)

  /** A schedule with its `Movie` and `Actor` navigation properties loaded. */
  datatype ScheduleWithDetails = ScheduleWithDetails(schedule: Schedule, movie: Option<Movie>, actor: Option<Actor>)

  /** Body of POST /movies and PUT /movies/{id}; a JSON null title is None. */
  datatype MovieRequest = MovieRequest(
    title: Option<string>,
    description: Option<string>,
    durationMinutes: int,
    releaseDate: Option<DateOnly>)

  /** Body of POST /actors and PUT /actors/{id}. */
  datatype ActorRequest = ActorRequest(
    firstName: Option<string>,
    lastName: Option<string>,
    birthDate: Option<DateOnly>)

  /** Body of POST /schedules and PUT /schedules/{id}. */
  datatype ScheduleRequest = ScheduleRequest(
    movieId: int,
    actorId: int,
    startsAt: DateTime,
    location: Option<string>)

  /** What a handler returns: 201 with a location, 200, 204, 400 with a message, 404. */
  datatype Response<T> =
    | Created(location: string, value: T)
    | Ok(value: T)
    | NoContent
    | BadRequest(message: string)
    | NotFound

  /** The three tables, keyed by id, and the next id each table hands out. */
  datatype Db = Db(
    movies: map<int, Movie>,
    actors: map<int, Actor>,
    schedules: map<int, Schedule>,
    nextMovieId: int,
    nextActorId: int,
    nextScheduleId: int)

  /** The store after a handler ran, and the handler's result. */
  datatype Step<T> = Step(db: Db, response: Response<T>)

  const TitleRequired := "Title is required"
  const DurationNegative := "DurationMinutes must be >= 0"
  const NamesRequired := "FirstName and LastName are required"
  const StartsAtRequired := "StartsAt is required"

  function MovieMissing(movieId: int): string {
    "MovieId " + IntToDecimal(movieId) + " does not exist"
  }

  function ActorMissing(actorId: int): string {
    "ActorId " + IntToDecimal(actorId) + " does not exist"
  }

  function MovieLocation(id: int): string { "/api/v1/movies/" + IntToDecimal(id) }
  function ActorLocation(id: int): string { "/api/v1/actors/" + IntToDecimal(id) }
  function ScheduleLocation(id: int): string { "/api/v1/schedules/" + IntToDecimal(id) }

  function MovieId(m: Movie): int { m.id }
  function ActorId(a: Actor): int { a.id }
  function ScheduleId(s: Schedule): int { s.id }

  // ---------------------------------------------------------------- invariant

  /** A stored title or name: not empty, no surrounding white space. */
  predicate IsStoredName(s: string) {
    s != [] && IsTrimmed(s)
  }

  predicate WellFormedMovie(m: Movie) {
    IsStoredName(m.title) && m.durationMinutes >= 0
  }

  predicate WellFormedActor(a: Actor) {
    IsStoredName(a.firstName) && IsStoredName(a.lastName)
  }

  /** Every movie sits under its own id, below the next id, and passed validation. */
  predicate MoviesConsistent(movies: map<int, Movie>, next: int) {
    next > 0 &&
    forall id :: id in movies ==> 0 < id < next && movies[id].id == id && WellFormedMovie(movies[id])
  }

  /** Every actor sits under its own id, below the next id, and passed validation. */
  predicate ActorsConsistent(actors: map<int, Actor>, next: int) {
    next > 0 &&
    forall id :: id in actors ==> 0 < id < next && actors[id].id == id && WellFormedActor(actors[id])
  }

  /** Every schedule sits under its own id, below the next id, has a start
    * time, and references one of `movieIds` and one of `actorIds`. */
  predicate SchedulesConsistent(schedules: map<int, Schedule>, next: int, movieIds: set<int>, actorIds: set<int>) {
    next > 0 &&
    forall id :: id in schedules ==>
      && 0 < id < next && schedules[id].id == id
      && schedules[id].startsAt != DefaultDateTime
      && schedules[id].movieId in movieIds
      && schedules[id].actorId in actorIds
  }

  /** The store invariant: all three tables consistent, and every schedule
    * references an existing movie and an existing actor. */
  predicate Consistent(db: Db) {
    && MoviesConsistent(db.movies, db.nextMovieId)
    && ActorsConsistent(db.actors, db.nextActorId)
    && SchedulesConsistent(db.schedules, db.nextScheduleId, db.movies.Keys, db.actors.Keys)
  }

  /** Storing a validated movie under its id, fresh or existing, keeps the table consistent. */
  lemma MovieStored(movies: map<int, Movie>, next: int, m: Movie)
    requires MoviesConsistent(movies, next) && WellFormedMovie(m)
    requires m.id in movies || m.id == next
    ensures MoviesConsistent(movies[m.id := m], if m.id in movies then next else next + 1)
    ensures movies[m.id := m].Keys == movies.Keys + {m.id}
  {
  }

  lemma ActorStored(actors: map<int, Actor>, next: int, a: Actor)
    requires ActorsConsistent(actors, next) && WellFormedActor(a)
    requires a.id in actors || a.id == next
    ensures ActorsConsistent(actors[a.id := a], if a.id in actors then next else next + 1)
    ensures actors[a.id := a].Keys == actors.Keys + {a.id}
  {
  }

  lemma ScheduleStored(schedules: map<int, Schedule>, next: int, movieIds: set<int>, actorIds: set<int>, s: Schedule)
    requires SchedulesConsistent(schedules, next, movieIds, actorIds)
    requires s.startsAt != DefaultDateTime && s.movieId in movieIds && s.actorId in actorIds
    requires s.id in schedules || s.id == next
    ensures SchedulesConsistent(schedules[s.id := s], if s.id in schedules then next else next + 1, movieIds, actorIds)
  {
  }

  /** The database as `EnsureCreated` leaves it. */
  function Empty(): (db: Db)
    ensures Consistent(db)
    ensures db.movies == map[] && db.actors == map[] && db.schedules == map[]
  {
    Db(map[], map[], map[], 1, 1, 1)
  }

  // --------------------------------------------------------------- validation

  /** The checks of the movie POST and PUT handlers, in their order: the
    * message of the first that fails, or None. */
  function MovieRequestError(req: MovieRequest): (e: Option<string>)
    ensures e.None? <==> !IsNullOrWhiteSpace(req.title) && req.durationMinutes >= 0
    ensures IsNullOrWhiteSpace(req.title) ==> e == Some(TitleRequired)
    ensures e.Some? && !IsNullOrWhiteSpace(req.title) ==> e == Some(DurationNegative)
  {
    if IsNullOrWhiteSpace(req.title) then Some(TitleRequired)
    else if req.durationMinutes < 0 then Some(DurationNegative)
    else None
  }

  /** The row a valid movie request stores: title trimmed, the rest verbatim. */
  function MovieRow(id: int, req: MovieRequest): (m: Movie)
    requires MovieRequestError(req).None?
    ensures WellFormedMovie(m)
    ensures m.id == id && m.title == Trim(req.title.value)
    ensures m.description == req.description && m.durationMinutes == req.durationMinutes
    ensures m.releaseDate == req.releaseDate
  {
    TrimEmptyIffBlank(req.title.value);
    Movie(id, Trim(req.title.value), req.description, req.durationMinutes, req.releaseDate)
  }

  /** The check of the actor POST and PUT handlers. */
  function ActorRequestError(req: ActorRequest): (e: Option<string>)
    ensures e.None? <==> !IsNullOrWhiteSpace(req.firstName) && !IsNullOrWhiteSpace(req.lastName)
    ensures e.Some? ==> e == Some(NamesRequired)
  {
    if IsNullOrWhiteSpace(req.firstName) || IsNullOrWhiteSpace(req.lastName) then Some(NamesRequired)
    else None
  }

  /** The row a valid actor request stores: both names trimmed. */
  function ActorRow(id: int, req: ActorRequest): (a: Actor)
    requires ActorRequestError(req).None?
    ensures WellFormedActor(a)
    ensures a.id == id && a.firstName == Trim(req.firstName.value) && a.lastName == Trim(req.lastName.value)
    ensures a.birthDate == req.birthDate
  {
    TrimEmptyIffBlank(req.firstName.value);
    TrimEmptyIffBlank(req.lastName.value);
    Actor(id, Trim(req.firstName.value), Trim(req.lastName.value), req.birthDate)
  }

  /** The start-time check every schedule POST and PUT makes first. */
  function StartsAtError(req: ScheduleRequest): (e: Option<string>)
    ensures e.None? <==> req.startsAt != DefaultDateTime
    ensures e.Some? ==> e == Some(StartsAtRequired)
  {
    if req.startsAt == DefaultDateTime then Some(StartsAtRequired) else None
  }

  /** The two foreign-key checks, movie before actor. */
  function ReferenceError(db: Db, req: ScheduleRequest): (e: Option<string>)
    ensures e.None? <==> req.movieId in db.movies && req.actorId in db.actors
    ensures req.movieId !in db.movies ==> e == Some(MovieMissing(req.movieId))
    ensures req.movieId in db.movies && e.Some? ==> e == Some(ActorMissing(req.actorId))
  {
    if req.movieId !in db.movies then Some(MovieMissing(req.movieId))
    else if req.actorId !in db.actors then Some(ActorMissing(req.actorId))
    else None
  }

  function ScheduleRow(id: int, req: ScheduleRequest): Schedule {
    Schedule(id, req.movieId, req.actorId, req.startsAt, req.location)
  }

  // ------------------------------------------------------------------ cascade

  /** The schedule table after its movie foreign key cascades the delete of `movieId`. */
  function WithoutMovie(schedules: map<int, Schedule>, movieId: int): (r: map<int, Schedule>)
    ensures forall id :: id in r <==> id in schedules && schedules[id].movieId != movieId
    ensures forall id :: id in r ==> r[id] == schedules[id]
  {
    map id | id in schedules && schedules[id].movieId != movieId :: schedules[id]
  }

  /** The schedule table after its actor foreign key cascades the delete of `actorId`. */
  function WithoutActor(schedules: map<int, Schedule>, actorId: int): (r: map<int, Schedule>)
    ensures forall id :: id in r <==> id in schedules && schedules[id].actorId != actorId
    ensures forall id :: id in r ==> r[id] == schedules[id]
  {
    map id | id in schedules && schedules[id].actorId != actorId :: schedules[id]
  }

  /** Deleting a movie together with the schedules its foreign key cascades
    * to leaves no schedule dangling. */
  lemma MovieDeleted(db: Db, id: int)
    requires Consistent(db)
    ensures Consistent(db.(movies := db.movies - {id}, schedules := WithoutMovie(db.schedules, id)))
  {
  }

  /** Deleting an actor together with the schedules its foreign key cascades
    * to leaves no schedule dangling. */
  lemma ActorDeleted(db: Db, id: int)
    requires Consistent(db)
    ensures Consistent(db.(actors := db.actors - {id}, schedules := WithoutActor(db.schedules, id)))
  {
  }

  // ------------------------------------------------------------------- movies

  /** POST /movies. */
  function CreateMovie(db: Db, req: MovieRequest): (s: Step<Movie>)
    requires Consistent(db)
    ensures Consistent(s.db)
    ensures MovieRequestError(req).Some? ==> s == Step(db, BadRequest(MovieRequestError(req).value))
    ensures MovieRequestError(req).None? ==>
      && s.response.Created?
      && var m := s.response.value;
      && m.id !in db.movies
      && m == MovieRow(m.id, req)
      && s.response.location == MovieLocation(m.id)
      && s.db.movies == db.movies[m.id := m]
      && s.db.actors == db.actors && s.db.schedules == db.schedules
  {
    match MovieRequestError(req)
    case Some(message) => Step(db, BadRequest(message))
    case None =>
      var m := MovieRow(db.nextMovieId, req);
      MovieStored(db.movies, db.nextMovieId, m);
      Step(db.(movies := db.movies[m.id := m], nextMovieId := db.nextMovieId + 1),
           Created(MovieLocation(m.id), m))
  }

  /** GET /movies: every movie, ascending by id. */
  function ListMovies(db: Db): (r: Response<seq<Movie>>)
    requires Consistent(db)
    ensures r.Ok? && Seqs.ListsInKeyOrder(r.value, db.movies, MovieId)
  {
    Ok(Seqs.InKeyOrder(db.movies, MovieId))
  }

  /** PUT /movies/{id}: the body is validated before the id is looked up. */
  function UpdateMovie(db: Db, id: int, req: MovieRequest): (s: Step<Movie>)
    requires Consistent(db)
    ensures Consistent(s.db)
    ensures MovieRequestError(req).Some? ==> s == Step(db, BadRequest(MovieRequestError(req).value))
    ensures MovieRequestError(req).None? && id !in db.movies ==> s == Step(db, NotFound)
    ensures MovieRequestError(req).None? && id in db.movies ==>
      && s.response == Ok(MovieRow(id, req))
      && s.db == db.(movies := db.movies[id := MovieRow(id, req)])
  {
    match MovieRequestError(req)
    case Some(message) => Step(db, BadRequest(message))
    case None =>
      if id !in db.movies then Step(db, NotFound)
      else
        var m := MovieRow(id, req);
        MovieStored(db.movies, db.nextMovieId, m);
        Step(db.(movies := db.movies[id := m]), Ok(m))
  }

  /** DELETE /movies/{id}, cascading to the movie's schedules. */
  function DeleteMovie(db: Db, id: int): (s: Step<()>)
    requires Consistent(db)
    ensures Consistent(s.db)
    ensures id !in db.movies ==> s == Step(db, NotFound)
    ensures id in db.movies ==>
      && s.response == NoContent
      && s.db == db.(movies := db.movies - {id}, schedules := WithoutMovie(db.schedules, id))
  {
    if id !in db.movies then Step(db, NotFound)
    else
      MovieDeleted(db, id);
      Step(db.(movies := db.movies - {id}, schedules := WithoutMovie(db.schedules, id)), NoContent)
  }

  // ------------------------------------------------------------------- actors

  /** POST /actors. */
  function CreateActor(db: Db, req: ActorRequest): (s: Step<Actor>)
    requires Consistent(db)
    ensures Consistent(s.db)
    ensures ActorRequestError(req).Some? ==> s == Step(db, BadRequest(NamesRequired))
    ensures ActorRequestError(req).None? ==>
      && s.response.Created?
      && var a := s.response.value;
      && a.id !in db.actors
      && a == ActorRow(a.id, req)
      && s.response.location == ActorLocation(a.id)
      && s.db.actors == db.actors[a.id := a]
      && s.db.movies == db.movies && s.db.schedules == db.schedules
  {
    match ActorRequestError(req)
    case Some(message) => Step(db, BadRequest(message))
    case None =>
      var a := ActorRow(db.nextActorId, req);
      ActorStored(db.actors, db.nextActorId, a);
      Step(db.(actors := db.actors[a.id := a], nextActorId := db.nextActorId + 1),
           Created(ActorLocation(a.id), a))
  }

  /** GET /actors: every actor, ascending by id. */
  function ListActors(db: Db): (r: Response<seq<Actor>>)
    requires Consistent(db)
    ensures r.Ok? && Seqs.ListsInKeyOrder(r.value, db.actors, ActorId)
  {
    Ok(Seqs.InKeyOrder(db.actors, ActorId))
  }

  /** PUT /actors/{id}: the body is validated before the id is looked up. */
  function UpdateActor(db: Db, id: int, req: ActorRequest): (s: Step<Actor>)
    requires Consistent(db)
    ensures Consistent(s.db)
    ensures ActorRequestError(req).Some? ==> s == Step(db, BadRequest(NamesRequired))
    ensures ActorRequestError(req).None? && id !in db.actors ==> s == Step(db, NotFound)
    ensures ActorRequestError(req).None? && id in db.actors ==>
      && s.response == Ok(ActorRow(id, req))
      && s.db == db.(actors := db.actors[id := ActorRow(id, req)])
  {
    match ActorRequestError(req)
    case Some(message) => Step(db, BadRequest(message))
    case None =>
      if id !in db.actors then Step(db, NotFound)
      else
        var a := ActorRow(id, req);
        ActorStored(db.actors, db.nextActorId, a);
        Step(db.(actors := db.actors[id := a]), Ok(a))
  }

  /** DELETE /actors/{id}, cascading to the actor's schedules. */
  function DeleteActor(db: Db, id: int): (s: Step<()>)
    requires Consistent(db)
    ensures Consistent(s.db)
    ensures id !in db.actors ==> s == Step(db, NotFound)
    ensures id in db.actors ==>
      && s.response == NoContent
      && s.db == db.(actors := db.actors - {id}, schedules := WithoutActor(db.schedules, id))
  {
    if id !in db.actors then Step(db, NotFound)
    else
      ActorDeleted(db, id);
      Step(db.(actors := db.actors - {id}, schedules := WithoutActor(db.schedules, id)), NoContent)
  }

  // ---------------------------------------------------------------- schedules

  /** POST /schedules: start time, then movie, then actor. */
  function CreateSchedule(db: Db, req: ScheduleRequest): (s: Step<Schedule>)
    requires Consistent(db)
    ensures Consistent(s.db)
    ensures StartsAtError(req).Some? ==> s == Step(db, BadRequest(StartsAtRequired))
    ensures StartsAtError(req).None? && ReferenceError(db, req).Some? ==>
      s == Step(db, BadRequest(ReferenceError(db, req).value))
    ensures StartsAtError(req).None? && ReferenceError(db, req).None? ==>
      && s.response.Created?
      && var row := s.response.value;
      && row.id !in db.schedules
      && row == ScheduleRow(row.id, req)
      && s.response.location == ScheduleLocation(row.id)
      && s.db.schedules == db.schedules[row.id := row]
      && s.db.movies == db.movies && s.db.actors == db.actors
  {
    if StartsAtError(req).Some? then Step(db, BadRequest(StartsAtRequired))
    else match ReferenceError(db, req)
      case Some(message) => Step(db, BadRequest(message))
      case None =>
        var row := ScheduleRow(db.nextScheduleId, req);
        ScheduleStored(db.schedules, db.nextScheduleId, db.movies.Keys, db.actors.Keys, row);
        Step(db.(schedules := db.schedules[row.id := row], nextScheduleId := db.nextScheduleId + 1),
             Created(ScheduleLocation(row.id), row))
  }

  /** A schedule with the movie and actor it references joined in. */
  function WithDetails(db: Db, s: Schedule): (d: ScheduleWithDetails)
    ensures d.schedule == s
    ensures s.movieId in db.movies ==> d.movie == Some(db.movies[s.movieId])
    ensures s.actorId in db.actors ==> d.actor == Some(db.actors[s.actorId])
  {
    ScheduleWithDetails(
      s,
      if s.movieId in db.movies then Some(db.movies[s.movieId]) else None,
      if s.actorId in db.actors then Some(db.actors[s.actorId]) else None)
  }

  /** The schedules a listing of details carries. */
  function Plain(rows: seq<ScheduleWithDetails>): (r: seq<Schedule>)
    ensures |r| == |rows| && forall i :: 0 <= i < |rows| ==> r[i] == rows[i].schedule
  {
    seq(|rows|, i requires 0 <= i < |rows| => rows[i].schedule)
  }

  /** The rows of a schedule listing with their movies and actors joined in. */
  function JoinDetails(db: Db, rows: seq<Schedule>): (r: seq<ScheduleWithDetails>)
    requires Consistent(db)
    requires forall i :: 0 <= i < |rows| ==> rows[i].id in db.schedules && db.schedules[rows[i].id] == rows[i]
    ensures Plain(r) == rows
    ensures forall i :: 0 <= i < |r| ==>
      && r[i].movie == Some(db.movies[r[i].schedule.movieId])
      && r[i].actor == Some(db.actors[r[i].schedule.actorId])
  {
    var r := seq(|rows|, i requires 0 <= i < |rows| => WithDetails(db, rows[i]));
    assert Plain(r) == rows;
    r
  }

  /** Each row of a key-ordered schedule listing is the table's row under its id. */
  lemma ListedSchedulesStored(schedules: map<int, Schedule>, rows: seq<Schedule>)
    requires Seqs.ListsInKeyOrder(rows, schedules, ScheduleId)
    ensures forall i :: 0 <= i < |rows| ==> rows[i].id in schedules && schedules[rows[i].id] == rows[i]
  {
    assert forall i :: 0 <= i < |rows| ==> ScheduleId(rows[i]) == rows[i].id;
  }

  /** GET /schedules: every schedule, ascending by id, each with its movie and actor. */
  function ListSchedules(db: Db): (r: Response<seq<ScheduleWithDetails>>)
    requires Consistent(db)
    ensures r.Ok? && Seqs.ListsInKeyOrder(Plain(r.value), db.schedules, ScheduleId)
    ensures forall i :: 0 <= i < |r.value| ==>
      && r.value[i].movie == Some(db.movies[r.value[i].schedule.movieId])
      && r.value[i].actor == Some(db.actors[r.value[i].schedule.actorId])
  {
    var rows := Seqs.InKeyOrder(db.schedules, ScheduleId);
    ListedSchedulesStored(db.schedules, rows);
    var details := JoinDetails(db, rows);
    Ok(details)
  }

  /** Each listed schedule references a stored movie and a stored actor,
    * and is joined with exactly those. */
  lemma ListedScheduleJoined(db: Db, i: int)
    requires Consistent(db) && 0 <= i < |ListSchedules(db).value|
    ensures var d := ListSchedules(db).value[i];
      && d.schedule.movieId in db.movies && d.movie == Some(db.movies[d.schedule.movieId])
      && d.schedule.actorId in db.actors && d.actor == Some(db.actors[d.schedule.actorId])
  {
    var rows := ListSchedules(db).value;
    ListedSchedulesStored(db.schedules, Plain(rows));
    assert rows[i].schedule == Plain(rows)[i];
    assert rows[i].schedule.id in db.schedules;
  }

  /** PUT /schedules/{id}: start time, then the id, then movie, then actor. */
  function UpdateSchedule(db: Db, id: int, req: ScheduleRequest): (s: Step<Schedule>)
    requires Consistent(db)
    ensures Consistent(s.db)
    ensures StartsAtError(req).Some? ==> s == Step(db, BadRequest(StartsAtRequired))
    ensures StartsAtError(req).None? && id !in db.schedules ==> s == Step(db, NotFound)
    ensures StartsAtError(req).None? && id in db.schedules && ReferenceError(db, req).Some? ==>
      s == Step(db, BadRequest(ReferenceError(db, req).value))
    ensures StartsAtError(req).None? && id in db.schedules && ReferenceError(db, req).None? ==>
      && s.response == Ok(ScheduleRow(id, req))
      && s.db == db.(schedules := db.schedules[id := ScheduleRow(id, req)])
  {
    if StartsAtError(req).Some? then Step(db, BadRequest(StartsAtRequired))
    else if id !in db.schedules then Step(db, NotFound)
    else match ReferenceError(db, req)
      case Some(message) => Step(db, BadRequest(message))
      case None =>
        var row := ScheduleRow(id, req);
        ScheduleStored(db.schedules, db.nextScheduleId, db.movies.Keys, db.actors.Keys, row);
        Step(db.(schedules := db.schedules[id := row]), Ok(row))
  }

  /** DELETE /schedules/{id}. */
  function DeleteSchedule(db: Db, id: int): (s: Step<()>)
    requires Consistent(db)
    ensures Consistent(s.db)
    ensures id !in db.schedules ==> s == Step(db, NotFound)
    ensures id in db.schedules ==> s.response == NoContent && s.db == db.(schedules := db.schedules - {id})
  {
    if id !in db.schedules then Step(db, NotFound)
    else Step(db.(schedules := db.schedules - {id}), NoContent)
  }
}
