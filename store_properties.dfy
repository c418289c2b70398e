/** Properties of the record store across several requests: what the GET
  * endpoints show after a create, an update or a cascading delete, and
  * concrete request sequences (create then list, create then rename,
  * create then delete). */
module StoreProperties {
  import opened Wrappers
  import opened Text
  import Seqs
  import opened Store

  /** A title already in stored form passes validation and is stored as sent. */
  lemma StoredFormTitleKept(id: int, req: MovieRequest)
    requires req.title.Some? && IsStoredName(req.title.value) && req.durationMinutes >= 0
    ensures MovieRequestError(req).None?
    ensures MovieRow(id, req) == Movie(id, req.title.value, req.description, req.durationMinutes, req.releaseDate)
  {
    assert !IsWhiteSpace(req.title.value[0]);
    TrimOfTrimmed(req.title.value);
  }

  /** Names already in stored form pass validation and are stored as sent. */
  lemma StoredFormNamesKept(id: int, req: ActorRequest)
    requires req.firstName.Some? && IsStoredName(req.firstName.value)
    requires req.lastName.Some? && IsStoredName(req.lastName.value)
    ensures ActorRequestError(req).None?
    ensures ActorRow(id, req) == Actor(id, req.firstName.value, req.lastName.value, req.birthDate)
  {
    assert !IsWhiteSpace(req.firstName.value[0]);
    assert !IsWhiteSpace(req.lastName.value[0]);
    TrimOfTrimmed(req.firstName.value);
    TrimOfTrimmed(req.lastName.value);
  }

  /** A created movie is listed last, after every movie listed before. */
  lemma CreatedMovieListedLast(db: Db, req: MovieRequest)
    requires Consistent(db) && MovieRequestError(req).None?
    ensures var s := CreateMovie(db, req);
      ListMovies(s.db).value == ListMovies(db).value + [s.response.value]
  {
    var s := CreateMovie(db, req);
    var m := s.response.value;
    assert m.id == db.nextMovieId;
    assert s.db.movies == db.movies[MovieId(m) := m];
    assert forall k :: k in db.movies ==> k < MovieId(m);
    Seqs.AppendedListing(ListMovies(db).value, ListMovies(s.db).value, db.movies, MovieId, m);
  }

  /** A created actor is listed last, after every actor listed before. */
  lemma CreatedActorListedLast(db: Db, req: ActorRequest)
    requires Consistent(db) && ActorRequestError(req).None?
    ensures var s := CreateActor(db, req);
      ListActors(s.db).value == ListActors(db).value + [s.response.value]
  {
    var s := CreateActor(db, req);
    var a := s.response.value;
    assert a.id == db.nextActorId;
    assert s.db.actors == db.actors[ActorId(a) := a];
    assert forall k :: k in db.actors ==> k < ActorId(a);
    Seqs.AppendedListing(ListActors(db).value, ListActors(s.db).value, db.actors, ActorId, a);
  }

  /** A created schedule is listed last, after every schedule listed before. */
  lemma CreatedScheduleListedLast(db: Db, req: ScheduleRequest)
    requires Consistent(db) && StartsAtError(req).None? && ReferenceError(db, req).None?
    ensures var s := CreateSchedule(db, req);
      Plain(ListSchedules(s.db).value) == Plain(ListSchedules(db).value) + [s.response.value]
  {
    var s := CreateSchedule(db, req);
    var row := s.response.value;
    assert row.id == db.nextScheduleId;
    var before := Plain(ListSchedules(db).value);
    assert s.db.schedules == db.schedules[ScheduleId(row) := row];
    assert forall k :: k in db.schedules ==> k < ScheduleId(row);
    Seqs.AppendedListing(before, Plain(ListSchedules(s.db).value), db.schedules, ScheduleId, row);
  }

  /** After a successful movie update the listing is the one before with
    * that movie's entry replaced in place. */
  lemma UpdatedMovieRelisted(db: Db, id: int, req: MovieRequest)
    requires Consistent(db) && MovieRequestError(req).None? && id in db.movies
    ensures var before := ListMovies(db).value;
      var after := ListMovies(UpdateMovie(db, id, req).db).value;
      exists i :: 0 <= i < |before| && before[i] == db.movies[id] && after == before[i := MovieRow(id, req)]
  {
    var before := ListMovies(db).value;
    var m := MovieRow(id, req);
    var s := UpdateMovie(db, id, req);
    assert MovieId(m) == id && s.db.movies == db.movies[id := m];
    var after := ListMovies(s.db).value;
    var i := Seqs.ReplacedListing(before, after, db.movies, MovieId, m);
    assert before[i] == db.movies[id] && after == before[i := m];
  }

  /** After a successful actor update the listing is the one before with
    * that actor's entry replaced in place. */
  lemma UpdatedActorRelisted(db: Db, id: int, req: ActorRequest)
    requires Consistent(db) && ActorRequestError(req).None? && id in db.actors
    ensures var before := ListActors(db).value;
      var after := ListActors(UpdateActor(db, id, req).db).value;
      exists i :: 0 <= i < |before| && before[i] == db.actors[id] && after == before[i := ActorRow(id, req)]
  {
    var before := ListActors(db).value;
    var a := ActorRow(id, req);
    var s := UpdateActor(db, id, req);
    assert ActorId(a) == id && s.db.actors == db.actors[id := a];
    var after := ListActors(s.db).value;
    var i := Seqs.ReplacedListing(before, after, db.actors, ActorId, a);
    assert before[i] == db.actors[id] && after == before[i := a];
  }

  /** A PUT that sends a stored movie's own values answers with that movie
    * and changes nothing. */
  lemma UnchangedMovieUpdate(db: Db, id: int)
    requires Consistent(db) && id in db.movies
    ensures var m := db.movies[id];
      UpdateMovie(db, id, MovieRequest(Some(m.title), m.description, m.durationMinutes, m.releaseDate)) == Step(db, Ok(m))
  {
    var m := db.movies[id];
    var req := MovieRequest(Some(m.title), m.description, m.durationMinutes, m.releaseDate);
    assert WellFormedMovie(m);
    StoredFormTitleKept(id, req);
    assert db.movies[id := m] == db.movies;
  }

  /** A PUT that sends a stored actor's own values answers with that actor
    * and changes nothing. */
  lemma UnchangedActorUpdate(db: Db, id: int)
    requires Consistent(db) && id in db.actors
    ensures var a := db.actors[id];
      UpdateActor(db, id, ActorRequest(Some(a.firstName), Some(a.lastName), a.birthDate)) == Step(db, Ok(a))
  {
    var a := db.actors[id];
    var req := ActorRequest(Some(a.firstName), Some(a.lastName), a.birthDate);
    assert WellFormedActor(a);
    StoredFormNamesKept(id, req);
    assert db.actors[id := a] == db.actors;
  }

  /** After a movie is deleted the schedule listing shows none of its
    * schedules and every other schedule that was stored. */
  lemma DeletedMovieSchedulesUnlisted(db: Db, id: int)
    requires Consistent(db) && id in db.movies
    ensures var after := Plain(ListSchedules(DeleteMovie(db, id).db).value);
      && (forall i :: 0 <= i < |after| ==> after[i].movieId != id && after[i].id in db.schedules && db.schedules[after[i].id] == after[i])
      && (forall sid :: sid in db.schedules && db.schedules[sid].movieId != id ==> db.schedules[sid] in after)
  {
    var s := DeleteMovie(db, id);
    var after := Plain(ListSchedules(s.db).value);
    ListedSchedulesStored(s.db.schedules, after);
    forall sid | sid in db.schedules && db.schedules[sid].movieId != id ensures db.schedules[sid] in after {
      assert sid in s.db.schedules;
      var i := Seqs.PositionOf(after, s.db.schedules, ScheduleId, sid);
    }
  }

  /** After an actor is deleted the schedule listing shows none of its
    * schedules and every other schedule that was stored. */
  lemma DeletedActorSchedulesUnlisted(db: Db, id: int)
    requires Consistent(db) && id in db.actors
    ensures var after := Plain(ListSchedules(DeleteActor(db, id).db).value);
      && (forall i :: 0 <= i < |after| ==> after[i].actorId != id && after[i].id in db.schedules && db.schedules[after[i].id] == after[i])
      && (forall sid :: sid in db.schedules && db.schedules[sid].actorId != id ==> db.schedules[sid] in after)
  {
    var s := DeleteActor(db, id);
    var after := Plain(ListSchedules(s.db).value);
    ListedSchedulesStored(s.db.schedules, after);
    forall sid | sid in db.schedules && db.schedules[sid].actorId != id ensures db.schedules[sid] in after {
      assert sid in s.db.schedules;
      var i := Seqs.PositionOf(after, s.db.schedules, ScheduleId, sid);
    }
  }

  /** The indexes on title, on the names and on movie and start are not
    * unique: the same valid request posted twice stores two rows. */
  lemma DuplicatesAccepted(db: Db, movie: MovieRequest, actor: ActorRequest)
    requires Consistent(db) && MovieRequestError(movie).None? && ActorRequestError(actor).None?
    ensures var s1 := CreateMovie(db, movie);
      var s2 := CreateMovie(s1.db, movie);
      && s1.response.Created? && s2.response.Created?
      && s1.response.value.id != s2.response.value.id
      && s1.response.value.title == s2.response.value.title
      && s1.response.value.id in s2.db.movies && s2.response.value.id in s2.db.movies
    ensures var s1 := CreateActor(db, actor);
      var s2 := CreateActor(s1.db, actor);
      && s1.response.Created? && s2.response.Created?
      && s1.response.value.id != s2.response.value.id
      && s1.response.value.firstName == s2.response.value.firstName
      && s1.response.value.lastName == s2.response.value.lastName
      && s1.response.value.id in s2.db.actors && s2.response.value.id in s2.db.actors
  {
  }

  /** The same movie at the same start may be scheduled twice. */
  lemma DuplicateSchedulesAccepted(db: Db, req: ScheduleRequest)
    requires Consistent(db) && StartsAtError(req).None? && ReferenceError(db, req).None?
    ensures var s1 := CreateSchedule(db, req);
      var s2 := CreateSchedule(s1.db, req);
      && s1.response.Created? && s2.response.Created?
      && s1.response.value.id != s2.response.value.id
      && s1.response.value.movieId == s2.response.value.movieId
      && s1.response.value.startsAt == s2.response.value.startsAt
      && s1.response.value.id in s2.db.schedules && s2.response.value.id in s2.db.schedules
  {
    var s1 := CreateSchedule(db, req);
    assert ReferenceError(s1.db, req).None?;
  }

  /** Creating "Inception" (148 minutes) in an empty store returns it under
    * id 1, and the movie list then holds exactly that entry. */
  lemma InceptionRoundTrip(releaseDate: DateOnly)
    ensures var m := Movie(1, "Inception", None, 148, Some(releaseDate));
      var s := CreateMovie(Empty(), MovieRequest(Some("Inception"), None, 148, Some(releaseDate)));
      && s.response == Created(MovieLocation(1), m)
      && ListMovies(s.db).value == [m]
  {
    var req := MovieRequest(Some("Inception"), None, 148, Some(releaseDate));
    assert IsStoredName("Inception");
    StoredFormTitleKept(1, req);
    assert ListMovies(Empty()).value == [];
    CreatedMovieListedLast(Empty(), req);
  }

  /** Deleting an actor just created answers 204 and leaves the actor
    * table as it was before the create. */
  lemma CreatedActorDeletedTable(db: Db, req: ActorRequest)
    requires Consistent(db) && ActorRequestError(req).None?
    ensures var s1 := CreateActor(db, req);
      var s2 := DeleteActor(s1.db, s1.response.value.id);
      s2.response == NoContent && s2.db.actors == db.actors
  {
    var s1 := CreateActor(db, req);
    var n := s1.response.value.id;
    Seqs.RemoveFresh(db.actors, n, s1.response.value);
  }

  /** Deleting an actor just created restores the actor list, and the
    * deleted id is no longer listed. */
  lemma CreatedActorDeleted(db: Db, req: ActorRequest)
    requires Consistent(db) && ActorRequestError(req).None?
    ensures var s1 := CreateActor(db, req);
      var n := s1.response.value.id;
      var s2 := DeleteActor(s1.db, n);
      && s2.response == NoContent
      && ListActors(s2.db).value == ListActors(db).value
      && forall i :: 0 <= i < |ListActors(s2.db).value| ==> ListActors(s2.db).value[i].id != n
  {
    CreatedActorDeletedTable(db, req);
    var s1 := CreateActor(db, req);
    var n := s1.response.value.id;
    var s2 := DeleteActor(s1.db, n);
    assert ListActors(s2.db).value == Seqs.InKeyOrder(db.actors, ActorId);
    var after := ListActors(db).value;
    assert forall i :: 0 <= i < |after| ==> ActorId(after[i]) in db.actors;
  }

  /** POST of Tom Hanks gives a new id N and lists him last; DELETE of N
    * answers 204 and the actor list is again what it was before the POST. */
  lemma TomHanksRoundTrip(db: Db)
    requires Consistent(db)
    ensures var s1 := CreateActor(db, ActorRequest(Some("Tom"), Some("Hanks"), None));
      && s1.response.Created?
      && var n := s1.response.value.id;
      && n !in db.actors
      && s1.response.value == Actor(n, "Tom", "Hanks", None)
      && ListActors(s1.db).value == ListActors(db).value + [Actor(n, "Tom", "Hanks", None)]
      && var s2 := DeleteActor(s1.db, n);
      && s2.response == NoContent
      && ListActors(s2.db).value == ListActors(db).value
      && forall i :: 0 <= i < |ListActors(s2.db).value| ==> ListActors(s2.db).value[i].id != n
  {
    var req := ActorRequest(Some("Tom"), Some("Hanks"), None);
    assert IsStoredName("Tom") && IsStoredName("Hanks");
    StoredFormNamesKept(db.nextActorId, req);
    CreatedActorListedLast(db, req);
    CreatedActorDeleted(db, req);
  }

  /** Creating Leo DiCaprio in an empty store returns him under id 1 and
    * the actor table then holds exactly that entry. */
  lemma LeoCreated()
    ensures var s1 := CreateActor(Empty(), ActorRequest(Some("Leo"), Some("DiCaprio"), None));
      && s1.response == Created(ActorLocation(1), Actor(1, "Leo", "DiCaprio", None))
      && s1.db.actors == map[1 := Actor(1, "Leo", "DiCaprio", None)]
  {
    var create := ActorRequest(Some("Leo"), Some("DiCaprio"), None);
    assert IsStoredName("Leo") && IsStoredName("DiCaprio");
    StoredFormNamesKept(1, create);
  }

  /** A store whose only actor is `a` lists exactly `a`. */
  lemma OnlyActorListed(db: Db, a: Actor)
    requires Consistent(db) && db.actors == map[a.id := a]
    ensures ListActors(db).value == [a]
  {
    Seqs.SingletonInKeyOrder(a, ActorId);
    Seqs.KeyOrderUnique(ListActors(db).value, [a], db.actors, ActorId);
  }

  /** Renaming the only actor Leo to Leonardo keeps id 1. */
  lemma LeoRenamed(db: Db)
    requires Consistent(db) && db.actors == map[1 := Actor(1, "Leo", "DiCaprio", None)]
    ensures var s2 := UpdateActor(db, 1, ActorRequest(Some("Leonardo"), Some("DiCaprio"), None));
      && s2.response == Ok(Actor(1, "Leonardo", "DiCaprio", None))
      && s2.db.actors == map[1 := Actor(1, "Leonardo", "DiCaprio", None)]
  {
    var update := ActorRequest(Some("Leonardo"), Some("DiCaprio"), None);
    assert IsStoredName("Leonardo") && IsStoredName("DiCaprio");
    StoredFormNamesKept(1, update);
  }

  /** Renaming Leo to Leonardo keeps the id: the list shows the old name
    * before the update and the new one after it. */
  lemma LeoBecomesLeonardo(create: ActorRequest, update: ActorRequest)
    requires create == ActorRequest(Some("Leo"), Some("DiCaprio"), None)
    requires update == ActorRequest(Some("Leonardo"), Some("DiCaprio"), None)
    ensures var s1 := CreateActor(Empty(), create);
      && ListActors(s1.db).value == [Actor(1, "Leo", "DiCaprio", None)]
      && var s2 := UpdateActor(s1.db, 1, update);
      && s2.response == Ok(Actor(1, "Leonardo", "DiCaprio", None))
      && ListActors(s2.db).value == [Actor(1, "Leonardo", "DiCaprio", None)]
  {
    LeoCreated();
    var s1 := CreateActor(Empty(), create);
    OnlyActorListed(s1.db, Actor(1, "Leo", "DiCaprio", None));
    LeoRenamed(s1.db);
    var s2 := UpdateActor(s1.db, 1, update);
    OnlyActorListed(s2.db, Actor(1, "Leonardo", "DiCaprio", None));
  }
}
