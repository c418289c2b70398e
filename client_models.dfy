/** The record shapes the browser client exchanges with the API, as the
  * TypeScript interfaces declare them: dates are strings, null-able fields
  * are Options. */
module ClientModels {
  import opened Wrappers

  /** models/movie.model.ts `Movie`; releaseDate is "YYYY-MM-DD" or null. */
  datatype Movie = Movie(
    id: int,
    title: string,
    description: Option<string>,
    durationMinutes: int,
    releaseDate: Option<string>)

  /** `MovieCreateRequest`, which is also `MovieUpdateRequest`. */
  datatype MovieRequest = MovieRequest(
    title: string,
    description: Option<string>,
    durationMinutes: int,
    releaseDate: Option<string>)

  /** models/actor.model.ts `Actor`; birthDate is "YYYY-MM-DD" or null. */
  datatype Actor = Actor(id: int, firstName: string, lastName: string, birthDate: Option<string>)

  /** `ActorCreateRequest`, which is also `ActorUpdateRequest`. */
  datatype ActorRequest = ActorRequest(firstName: string, lastName: string, birthDate: Option<string>)

  /** models/schedule.model.ts `ScheduleWithDetails`: a `Schedule` with the
    * movie and actor the server joins in (absent or null is None). */
  datatype ScheduleWithDetails = ScheduleWithDetails(
    id: int,
    movieId: int,
    actorId: int,
    startsAt: string,
    location: Option<string>,
    movie: Option<Movie>,
    actor: Option<Actor>)

  /** `ScheduleCreateRequest`, which is also `ScheduleUpdateRequest`. */
  datatype ScheduleRequest = ScheduleRequest(movieId: int, actorId: int, startsAt: string, location: Option<string>)
}
