/** The twelve `/api/v1` handlers as methods of one database context: each
  * mutates the three tables in place and is proved to do what the
  * corresponding function of module Store specifies. */
module Endpoints {
  import opened Wrappers
  import opened Store

  class AppDb {
    var movies: map<int, Movie>
    var actors: map<int, Actor>
    var schedules: map<int, Schedule>
    var nextMovieId: int
    var nextActorId: int
    var nextScheduleId: int

    /** The tables as a value. */
    function Snapshot(): Db
      reads this
    {
      Db(movies, actors, schedules, nextMovieId, nextActorId, nextScheduleId)
    }

    ghost predicate Valid()
      reads this
    {
      Consistent(Snapshot())
    }

    constructor ()
      ensures Valid() && Snapshot() == Empty()
    {
      movies, actors, schedules := map[], map[], map[];
      nextMovieId, nextActorId, nextScheduleId := 1, 1, 1;
    }

    method PostMovie(req: MovieRequest) returns (r: Response<Movie>)
      requires Valid()
      modifies this
      ensures Valid()
      ensures Step(Snapshot(), r) == CreateMovie(old(Snapshot()), req)
    {
      ghost var expected := CreateMovie(Snapshot(), req);
      var error := MovieRequestError(req);
      if error.Some? {
        return BadRequest(error.value);
      }
      var movie := MovieRow(nextMovieId, req);
      ghost var db := Snapshot();
      ghost var db' := db.(movies := movies[movie.id := movie], nextMovieId := nextMovieId + 1);
      assert expected == Step(db', Created(MovieLocation(movie.id), movie));
      movies := movies[movie.id := movie];
      nextMovieId := nextMovieId + 1;
      r := Created(MovieLocation(movie.id), movie);
      assert Snapshot() == db';
    }

    method GetMovies() returns (r: Response<seq<Movie>>)
      requires Valid()
      ensures r == ListMovies(Snapshot())
    {
      r := Ok(Seqs.InKeyOrder(movies, MovieId));
    }

    method PutMovie(id: int, req: MovieRequest) returns (r: Response<Movie>)
      requires Valid()
      modifies this
      ensures Valid()
      ensures Step(Snapshot(), r) == UpdateMovie(old(Snapshot()), id, req)
    {
      ghost var expected := UpdateMovie(Snapshot(), id, req);
      var error := MovieRequestError(req);
      if error.Some? {
        return BadRequest(error.value);
      }
      if id !in movies {
        return NotFound;
      }
      var movie := MovieRow(id, req);
      movies := movies[id := movie];
      r := Ok(movie);
    }

    method DeleteMovie(id: int) returns (r: Response<()>)
      requires Valid()
      modifies this
      ensures Valid()
      ensures Step(Snapshot(), r) == Store.DeleteMovie(old(Snapshot()), id)
    {
      ghost var expected := Store.DeleteMovie(Snapshot(), id);
      if id !in movies {
        return NotFound;
      }
      movies := movies - {id};
      schedules := WithoutMovie(schedules, id);
      r := NoContent;
    }

    method PostActor(req: ActorRequest) returns (r: Response<Actor>)
      requires Valid()
      modifies this
      ensures Valid()
      ensures Step(Snapshot(), r) == CreateActor(old(Snapshot()), req)
    {
      ghost var expected := CreateActor(Snapshot(), req);
      var error := ActorRequestError(req);
      if error.Some? {
        return BadRequest(error.value);
      }
      var actor := ActorRow(nextActorId, req);
      ghost var db := Snapshot();
      ghost var db' := db.(actors := actors[actor.id := actor], nextActorId := nextActorId + 1);
      assert expected == Step(db', Created(ActorLocation(actor.id), actor));
      actors := actors[actor.id := actor];
      nextActorId := nextActorId + 1;
      r := Created(ActorLocation(actor.id), actor);
      assert Snapshot() == db';
    }

    method GetActors() returns (r: Response<seq<Actor>>)
      requires Valid()
      ensures r == ListActors(Snapshot())
    {
      r := Ok(Seqs.InKeyOrder(actors, ActorId));
    }

    method PutActor(id: int, req: ActorRequest) returns (r: Response<Actor>)
      requires Valid()
      modifies this
      ensures Valid()
      ensures Step(Snapshot(), r) == UpdateActor(old(Snapshot()), id, req)
    {
      ghost var expected := UpdateActor(Snapshot(), id, req);
      var error := ActorRequestError(req);
      if error.Some? {
        return BadRequest(error.value);
      }
      if id !in actors {
        return NotFound;
      }
      var actor := ActorRow(id, req);
      actors := actors[id := actor];
      r := Ok(actor);
    }

    method DeleteActor(id: int) returns (r: Response<()>)
      requires Valid()
      modifies this
      ensures Valid()
      ensures Step(Snapshot(), r) == Store.DeleteActor(old(Snapshot()), id)
    {
      ghost var expected := Store.DeleteActor(Snapshot(), id);
      if id !in actors {
        return NotFound;
      }
      actors := actors - {id};
      schedules := WithoutActor(schedules, id);
      r := NoContent;
    }

    method PostSchedule(req: ScheduleRequest) returns (r: Response<Schedule>)
      requires Valid()
      modifies this
      ensures Valid()
      ensures Step(Snapshot(), r) == CreateSchedule(old(Snapshot()), req)
    {
      ghost var expected := CreateSchedule(Snapshot(), req);
      if req.startsAt == DefaultDateTime {
        return BadRequest(StartsAtRequired);
      }
      if req.movieId !in movies {
        return BadRequest(MovieMissing(req.movieId));
      }
      if req.actorId !in actors {
        return BadRequest(ActorMissing(req.actorId));
      }
      var schedule := ScheduleRow(nextScheduleId, req);
      schedules := schedules[schedule.id := schedule];
      nextScheduleId := nextScheduleId + 1;
      r := Created(ScheduleLocation(schedule.id), schedule);
    }

    method GetSchedules() returns (r: Response<seq<ScheduleWithDetails>>)
      requires Valid()
      ensures r == ListSchedules(Snapshot())
    {
      var db := Snapshot();
      var rows := Seqs.InKeyOrder(db.schedules, ScheduleId);
      ListedSchedulesStored(db.schedules, rows);
      r := Ok(JoinDetails(db, rows));
    }

    method PutSchedule(id: int, req: ScheduleRequest) returns (r: Response<Schedule>)
      requires Valid()
      modifies this
      ensures Valid()
      ensures Step(Snapshot(), r) == UpdateSchedule(old(Snapshot()), id, req)
    {
      ghost var expected := UpdateSchedule(Snapshot(), id, req);
      if req.startsAt == DefaultDateTime {
        return BadRequest(StartsAtRequired);
      }
      if id !in schedules {
        return NotFound;
      }
      if req.movieId !in movies {
        return BadRequest(MovieMissing(req.movieId));
      }
      if req.actorId !in actors {
        return BadRequest(ActorMissing(req.actorId));
      }
      var schedule := ScheduleRow(id, req);
      schedules := schedules[id := schedule];
      r := Ok(schedule);
    }

    method DeleteSchedule(id: int) returns (r: Response<()>)
      requires Valid()
      modifies this
      ensures Valid()
      ensures Step(Snapshot(), r) == Store.DeleteSchedule(old(Snapshot()), id)
    {
      ghost var expected := Store.DeleteSchedule(Snapshot(), id);
      if id !in schedules {
        return NotFound;
      }
      schedules := schedules - {id};
      r := NoContent;
    }
  }
}
