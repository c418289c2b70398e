# Cinema schedule manager: record store, endpoints and browser views

The system manages a small cinema database. An ASP.NET minimal API exposes twelve handlers under `/api/v1`, covering create, list, update and delete for three tables:
- movies;
- actors;
- screening schedules, each referencing one movie and one actor.

An Angular client shows a searchable list and an edit form for each table.

This project models:
- **The record store** (module `Store`). The three tables are maps from id to row, and each has an id counter. Each handler is a function from the store before the request to the store after it plus the HTTP result. The result is 201 with a location, 200, 204, 400 with a message, or 404.
- **Request validation.** The checks run in the handlers' order, and the messages are the handlers' literal texts. Titles and names are trimmed on the way in.
- **The cascade delete** of the schedule table's two foreign keys.
- **The store invariant** (`Store.Consistent`):
  - every row sits under its own id, below the next id;
  - stored titles and names are non-empty and trimmed;
  - every schedule has a start time and references an existing movie and an existing actor.

  Every handler preserves it.
- **The handlers as methods of a database class** (`Endpoints.AppDb`). The class holds the three tables as mutable fields. Each method updates them in place and is proved to leave the store and the result exactly as the corresponding `Store` function specifies.
- **The browser views:**
  - the three list components: search filter, schedule labels, `reload`, `onDelete`;
  - the three form components: route-id edit mode, prefill, submit payload, create-or-update choice, `onSubmit`, and the schedule form's lookups and seconds padding.

  The pure parts are functions. The components are classes whose methods take the HTTP outcome and the `confirm()` answer as parameters.
- **The JSON boundary** (module `Wire`): how rows reach the views and how payloads reach the handlers. On top of it are round trips across client and server: editing a record and saving it unchanged stores the same record. Also shown: a blank title passes the form but is rejected by the server.

Modules follow the program's files:
- `Store`, `Endpoints` and `StoreProperties` model `Program.cs` and `AppDbContext.cs`;
- `MoviesList`, `ActorsList`, `SchedulesList`, `MovieForm`, `ActorForm` and `ScheduleForm` model the components of the same names;
- `ClientModels` holds the TypeScript record shapes;
- `Client` holds what the components share;
- `Text`, `Seqs` and `Wrappers` model the string, ordering and null operations the code uses.

A schedule PUT checks the start time before it looks the id up (`Program.cs:225-230`), so a missing start on an unknown id answers 400, not 404; the model keeps that order.

## Model

| member | source | states |
|---|---|---|
| Store.MovieRequestError | WebApplication1/WebApplication1/Program.cs:46-50 | a movie body fails exactly when the title is null or white space, or the duration is negative; the title check wins, with "Title is required", otherwise "DurationMinutes must be >= 0" |
| Store.MovieRow | WebApplication1/WebApplication1/Program.cs:52-58 | the stored movie has the title trimmed (hence non-empty and trimmed) and description, duration and release date verbatim |
| Store.ActorRequestError | WebApplication1/WebApplication1/Program.cs:119-120 | an actor body fails exactly when either name is null or white space, with "FirstName and LastName are required" |
| Store.ActorRow | WebApplication1/WebApplication1/Program.cs:122-127 | the stored actor has both names trimmed and the birth date verbatim |
| Store.StartsAtError | WebApplication1/WebApplication1/Program.cs:184-185 | a schedule body fails exactly when StartsAt is `default(DateTime)` |
| Store.ReferenceError | WebApplication1/WebApplication1/Program.cs:187-193 | the foreign-key checks fail exactly when the movie or the actor is missing; the movie check comes first and each message names the missing id |
| Store.WithoutMovie | WebApplication1/WebApplication1/Data/AppDbContext.cs:26-30 | the cascade removes exactly the schedules whose movie id is the deleted one and keeps every other schedule unchanged |
| Store.WithoutActor | WebApplication1/WebApplication1/Data/AppDbContext.cs:32-36 | the cascade removes exactly the schedules whose actor id is the deleted one and keeps every other schedule unchanged |
| Store.MovieDeleted | WebApplication1/WebApplication1/Data/AppDbContext.cs:26-30 | removing a movie together with its cascaded schedules leaves no dangling schedule |
| Store.ActorDeleted | WebApplication1/WebApplication1/Data/AppDbContext.cs:32-36 | removing an actor together with its cascaded schedules leaves no dangling schedule |
| Store.MovieStored | WebApplication1/WebApplication1/Program.cs:52-60 | storing a validated movie under a fresh or existing id keeps the movie table consistent |
| Store.ActorStored | WebApplication1/WebApplication1/Program.cs:122-129 | storing a validated actor under a fresh or existing id keeps the actor table consistent |
| Store.ScheduleStored | WebApplication1/WebApplication1/Program.cs:195-203 | storing a schedule with a start and existing references keeps the schedule table consistent |
| Store.Empty | WebApplication1/WebApplication1/Program.cs:23-27 | the freshly created database: all three tables empty, and consistent |
| Endpoints.AppDb.constructor | WebApplication1/WebApplication1/Program.cs:23-27 | a new database object holds exactly the empty store and satisfies the invariant |
| Store.CreateMovie | WebApplication1/WebApplication1/Program.cs:44-64 | an invalid body answers 400 with its message and leaves the store unchanged; a valid one adds exactly one movie, under an id no movie had, answers 201 with its location, and leaves actors and schedules unchanged; the invariant is kept |
| Store.ListMovies | WebApplication1/WebApplication1/Program.cs:67-75 | answers 200 with every movie exactly once, ascending by id |
| Store.UpdateMovie | WebApplication1/WebApplication1/Program.cs:78-98 | the body is validated before the lookup, so a bad body on an unknown id is 400; a valid body on an unknown id is 404 with no change; otherwise only that movie is overwritten, keeping its id, and it is returned |
| Store.DeleteMovie | WebApplication1/WebApplication1/Program.cs:101-111 | an unknown id is 404 with no change; otherwise 204, the movie and exactly its schedules are gone, nothing else changes, and the invariant is kept |
| Store.CreateActor | WebApplication1/WebApplication1/Program.cs:117-133 | as CreateMovie, for actors |
| Store.ListActors | WebApplication1/WebApplication1/Program.cs:136-144 | answers 200 with every actor exactly once, ascending by id |
| Store.UpdateActor | WebApplication1/WebApplication1/Program.cs:147-163 | validation before lookup; 404 on a valid body for an unknown id; otherwise only that actor is overwritten |
| Store.DeleteActor | WebApplication1/WebApplication1/Program.cs:166-176 | an unknown id is 404; otherwise 204, the actor and exactly its schedules are gone, and nothing else changes |
| Store.CreateSchedule | WebApplication1/WebApplication1/Program.cs:182-207 | start, then movie, then actor are checked and the first failure picks the 400 message with the store unchanged; otherwise exactly one schedule is added under a fresh id while movies and actors stay unchanged |
| Store.WithDetails | WebApplication1/WebApplication1/Program.cs:212-215 | a schedule comes with the movie and the actor it references |
| Store.JoinDetails | WebApplication1/WebApplication1/Program.cs:212-217 | joining keeps the rows in order and attaches each row's own movie and actor |
| Store.ListSchedules | WebApplication1/WebApplication1/Program.cs:210-220 | answers 200 with every schedule exactly once, ascending by id, each with its movie and actor |
| Store.ListedScheduleJoined | WebApplication1/WebApplication1/Program.cs:212-217 | every listed schedule references a stored movie and actor and carries exactly those |
| Store.UpdateSchedule | WebApplication1/WebApplication1/Program.cs:223-248 | start, then not-found, then movie, then actor; any failure leaves the store unchanged; otherwise only that schedule is overwritten |
| Store.DeleteSchedule | WebApplication1/WebApplication1/Program.cs:251-261 | an unknown id is 404 with no change; otherwise 204 and only that schedule is removed |
| Endpoints.AppDb.PostMovie | WebApplication1/WebApplication1/Program.cs:44-64 | the in-place handler leaves the tables and the result exactly as Store.CreateMovie specifies, and keeps the invariant |
| Endpoints.AppDb.GetMovies | WebApplication1/WebApplication1/Program.cs:67-75 | returns Store.ListMovies of the current tables and changes nothing |
| Endpoints.AppDb.PutMovie | WebApplication1/WebApplication1/Program.cs:78-98 | the source assigns the tracked movie's fields; the method overwrites that movie's entry in the table with the validated row under the same id, which leaves the tables and the result exactly as Store.UpdateMovie specifies |
| Endpoints.AppDb.DeleteMovie | WebApplication1/WebApplication1/Program.cs:101-111 | removes the movie and filters the schedule table in place, ending exactly as Store.DeleteMovie specifies |
| Endpoints.AppDb.PostActor | WebApplication1/WebApplication1/Program.cs:117-133 | ends exactly as Store.CreateActor specifies |
| Endpoints.AppDb.GetActors | WebApplication1/WebApplication1/Program.cs:136-144 | returns Store.ListActors and changes nothing |
| Endpoints.AppDb.PutActor | WebApplication1/WebApplication1/Program.cs:147-163 | ends exactly as Store.UpdateActor specifies |
| Endpoints.AppDb.DeleteActor | WebApplication1/WebApplication1/Program.cs:166-176 | ends exactly as Store.DeleteActor specifies, cascade included |
| Endpoints.AppDb.PostSchedule | WebApplication1/WebApplication1/Program.cs:182-207 | ends exactly as Store.CreateSchedule specifies |
| Endpoints.AppDb.GetSchedules | WebApplication1/WebApplication1/Program.cs:210-220 | returns Store.ListSchedules and changes nothing |
| Endpoints.AppDb.PutSchedule | WebApplication1/WebApplication1/Program.cs:223-248 | ends exactly as Store.UpdateSchedule specifies |
| Endpoints.AppDb.DeleteSchedule | WebApplication1/WebApplication1/Program.cs:251-261 | ends exactly as Store.DeleteSchedule specifies |
| StoreProperties.StoredFormTitleKept | WebApplication1/WebApplication1/Program.cs:46-58 | a title that is already non-empty and trimmed passes validation and is stored as sent |
| StoreProperties.StoredFormNamesKept | WebApplication1/WebApplication1/Program.cs:119-127 | names that are already non-empty and trimmed pass validation and are stored as sent |
| StoreProperties.CreatedMovieListedLast | WebApplication1/WebApplication1/Program.cs:44-75 | after a successful POST the movie list is the previous list with the new movie appended |
| StoreProperties.CreatedActorListedLast | WebApplication1/WebApplication1/Program.cs:117-144 | after a successful POST the actor list is the previous list with the new actor appended |
| StoreProperties.CreatedScheduleListedLast | WebApplication1/WebApplication1/Program.cs:182-220 | after a successful POST the schedule list is the previous list with the new schedule appended |
| StoreProperties.UpdatedMovieRelisted | WebApplication1/WebApplication1/Program.cs:67-98 | after a successful PUT the movie list is the previous list with that movie replaced in its place |
| StoreProperties.UpdatedActorRelisted | WebApplication1/WebApplication1/Program.cs:136-163 | after a successful PUT the actor list is the previous list with that actor replaced in its place |
| StoreProperties.UnchangedMovieUpdate | WebApplication1/WebApplication1/Program.cs:78-98 | a PUT carrying a stored movie's own values answers with that movie and changes nothing |
| StoreProperties.UnchangedActorUpdate | WebApplication1/WebApplication1/Program.cs:147-163 | a PUT carrying a stored actor's own values answers with that actor and changes nothing |
| StoreProperties.DeletedMovieSchedulesUnlisted | WebApplication1/WebApplication1/Data/AppDbContext.cs:26-30 | after a movie DELETE the schedule list shows none of its schedules and every other stored schedule |
| StoreProperties.DeletedActorSchedulesUnlisted | WebApplication1/WebApplication1/Data/AppDbContext.cs:32-36 | after an actor DELETE the schedule list shows none of its schedules and every other stored schedule |
| StoreProperties.DuplicatesAccepted | WebApplication1/WebApplication1/Data/AppDbContext.cs:20-24 | the same movie or actor posted twice is stored twice, under two ids |
| StoreProperties.DuplicateSchedulesAccepted | WebApplication1/WebApplication1/Data/AppDbContext.cs:38-39 | the same movie at the same start can be scheduled twice |
| StoreProperties.InceptionRoundTrip | WebApplication1/WebApplication1/Program.cs:44-75 | in an empty store, POST "Inception" answers 201 /api/v1/movies/1 and the list is exactly that movie |
| StoreProperties.CreatedActorDeletedTable | WebApplication1/WebApplication1/Program.cs:117-176 | deleting the actor just created answers 204 and restores the actor table |
| StoreProperties.CreatedActorDeleted | WebApplication1/WebApplication1/Program.cs:117-176 | deleting the actor just created restores the actor list, and its id is no longer listed |
| StoreProperties.TomHanksRoundTrip | WebApplication1/WebApplication1/Program.cs:117-176 | POST Tom Hanks gets a fresh id and is listed last; DELETE of that id answers 204 and the list is as before |
| StoreProperties.LeoCreated | WebApplication1/WebApplication1/Program.cs:117-133 | in an empty store, POST Leo DiCaprio answers 201 with id 1 and the table holds only him |
| StoreProperties.OnlyActorListed | WebApplication1/WebApplication1/Program.cs:136-144 | a store with a single actor lists exactly that actor |
| StoreProperties.LeoRenamed | WebApplication1/WebApplication1/Program.cs:147-163 | renaming the only actor to Leonardo keeps id 1 and answers 200 with the new name |
| StoreProperties.LeoBecomesLeonardo | WebApplication1/WebApplication1/Program.cs:117-163 | the list shows Leo after the POST and Leonardo under the same id after the PUT |
| Seqs.InKeyOrder | WebApplication1/WebApplication1/Program.cs:69-72 | `OrderBy(Id).ToList()`: every entry of the table exactly once, keys strictly ascending |
| Seqs.KeyOrderUnique | WebApplication1/WebApplication1/Program.cs:69-72 | a table has only one listing in ascending key order |
| Seqs.AppendedListing | WebApplication1/WebApplication1/Program.cs:60-72 | adding an entry above all present keys appends it to the listing |
| Seqs.ReplacedListing | WebApplication1/WebApplication1/Program.cs:69-95 | overwriting a present entry replaces it in place in the listing |
| Seqs.Keep | untitled/src/app/features/movies/movies-list.component.ts:67 | `Array.filter`: keeps every element satisfying the predicate and nothing else, each value exactly as often as it occurs in the input |
| Seqs.KeepIsSubsequence | untitled/src/app/features/movies/movies-list.component.ts:67 | filtering keeps the order: its result is a subsequence of its input |
| Text.Trim | WebApplication1/WebApplication1/Program.cs:54 | `Trim()` gives a result with no white space at either end and no longer than the input; TrimStart and TrimEnd, which it composes, remove only a blank prefix and a blank suffix |
| Text.TrimOfTrimmed | WebApplication1/WebApplication1/Program.cs:54 | trimming a string with no white space at either end returns it unchanged |
| Text.TrimIdempotent | WebApplication1/WebApplication1/Program.cs:54 | trimming twice is trimming once |
| Text.TrimEmptyIffBlank | WebApplication1/WebApplication1/Program.cs:46 | a string trims to empty exactly when it is all white space, so passing `IsNullOrWhiteSpace` guarantees a non-empty stored title |
| Text.ToLower | untitled/src/app/features/movies/movies-list.component.ts:65 | lower-cases every character in place, keeping the length |
| Text.Contains | untitled/src/app/features/movies/movies-list.component.ts:68 | `includes` holds exactly when the key occurs at some position |
| Text.DecimalRoundTrip | untitled/src/app/features/movies/movies-list.component.ts:68 | the decimal text of a number reads back as that number |
| Text.IntToDecimal | WebApplication1/WebApplication1/Program.cs:63 | the decimal text of an id or duration is non-empty and has a minus sign exactly for negative values |
| Client.RouteId | untitled/src/app/features/movies/movie-form.component.ts:83-84 | a missing or empty id parameter gives null; otherwise `Number(idParam)` |
| Client.EditModeIff | untitled/src/app/features/schedules/schedule-form.component.ts:105-107 | a form edits exactly when the route id is non-empty and parses to a number that is not NaN |
| Client.ChooseRequest | untitled/src/app/features/schedules/schedule-form.component.ts:165-167 | an update with the route id is sent exactly in edit mode, otherwise a create, and both carry the payload |
| Client.OptionalText | untitled/src/app/features/movies/movie-form.component.ts:109 | an optional text is sent as its trim, or as null exactly when it is null or blank |
| Client.OptionalTextOfPrefill | untitled/src/app/features/movies/movie-form.component.ts:91 | a value prefilled as `x ?? ''` is sent back as `x` when `x` is null or already trimmed and non-empty |
| Client.ListOrEmpty | untitled/src/app/features/schedules/schedule-form.component.ts:116-129 | a failed or null lookup gives an empty list; a loaded one gives its body |
| Client.SearchKey | untitled/src/app/features/movies/movies-list.component.ts:65-66 | the key is empty, so that everything is shown, exactly when the query is blank |
| Client.SearchFilter | untitled/src/app/features/movies/movies-list.component.ts:64-70 | a blank query keeps all items; otherwise an item is kept exactly when it matches, each matching value as often as it occurs in the input; the result always keeps the input order |
| MoviesList.Filter | untitled/src/app/features/movies/movies-list.component.ts:64-70 | a blank query keeps the list; otherwise a movie is shown exactly when the lower-cased key occurs in its lower-cased title, description, duration or release date (null as ''), each as often as it occurs in the loaded list; order is kept |
| MoviesList.MoviesListView.constructor | untitled/src/app/features/movies/movies-list.component.ts:72-74 | the view starts with an empty query, not loading, and with the list and error its first reload gives: the body on success, the load error and an empty list on failure |
| MoviesList.MoviesListView.SetQuery | untitled/src/app/features/movies/movies-list.component.ts:24 | the search box sets the query and nothing else |
| MoviesList.MoviesListView.Reload | untitled/src/app/features/movies/movies-list.component.ts:76-92 | success clears the error and shows the body (null as empty); failure shows "Konnte Movies nicht laden." and keeps the list; loading ends false |
| MoviesList.MoviesListView.OnDelete | untitled/src/app/features/movies/movies-list.component.ts:94-105 | a declined confirm sends nothing and changes nothing; a successful delete reloads; a failed one shows "Löschen fehlgeschlagen." and keeps the list |
| ActorsList.Filter | untitled/src/app/features/actors/actors-list.component.ts:64-70 | a blank query keeps the list; otherwise an actor is shown exactly when the key occurs in its first name, last name or birth date (null as ''), each as often as it occurs in the loaded list; order is kept |
| ActorsList.ActorsListView.constructor | untitled/src/app/features/actors/actors-list.component.ts:72-74 | as MoviesListView.constructor: empty query, then the first reload's list and error |
| ActorsList.ActorsListView.SetQuery | untitled/src/app/features/actors/actors-list.component.ts:24 | the search box sets the query and nothing else |
| ActorsList.ActorsListView.Reload | untitled/src/app/features/actors/actors-list.component.ts:76-92 | success shows the body; failure shows "Konnte Actors nicht laden." and keeps the list; loading ends false |
| ActorsList.ActorsListView.OnDelete | untitled/src/app/features/actors/actors-list.component.ts:94-105 | declined: nothing sent or changed; success: reload; failure: delete error, list kept |
| SchedulesList.MovieLabel | untitled/src/app/features/schedules/schedules-list.component.ts:105-107 | the joined movie's title, or '#' and the movie id when none is attached |
| SchedulesList.ActorLabel | untitled/src/app/features/schedules/schedules-list.component.ts:109-112 | the trimmed "first last" of the joined actor, or '#' and the actor id when none is attached |
| SchedulesList.ActorLabelOfStoredNames | untitled/src/app/features/schedules/schedules-list.component.ts:110 | for names stored trimmed and non-empty the trim changes nothing |
| SchedulesList.Filter | untitled/src/app/features/schedules/schedules-list.component.ts:68-81 | a blank query keeps the list; otherwise a schedule is shown exactly when the key occurs in its movie label, actor label, location (null as '') or start, each as often as it occurs in the loaded list; order is kept |
| SchedulesList.SchedulesListView.constructor | untitled/src/app/features/schedules/schedules-list.component.ts:83-85 | as MoviesListView.constructor: empty query, then the first reload's list and error |
| SchedulesList.SchedulesListView.SetQuery | untitled/src/app/features/schedules/schedules-list.component.ts:26 | the search box sets the query and nothing else |
| SchedulesList.SchedulesListView.Reload | untitled/src/app/features/schedules/schedules-list.component.ts:87-103 | success shows the body; failure shows "Konnte Schedules nicht laden." and keeps the list; loading ends false |
| SchedulesList.SchedulesListView.OnDelete | untitled/src/app/features/schedules/schedules-list.component.ts:114-125 | declined: nothing sent or changed; success: reload; failure: delete error, list kept |
| MovieForm.Payload | untitled/src/app/features/movies/movie-form.component.ts:100-112 | a payload exists exactly when the form is valid; it carries the trimmed title, the duration as entered, and description and release date trimmed or null when blank |
| MovieForm.NullDurationIsInvalid | untitled/src/app/features/movies/movie-form.component.ts:100-103 | the `duration === null` return never fires after the validity check |
| MovieForm.Prefill | untitled/src/app/features/movies/movie-form.component.ts:87-95 | the form takes the movie's title and duration, with null description and release date as '' |
| MovieForm.PrefillRoundTrip | untitled/src/app/features/movies/movie-form.component.ts:87-112 | for a movie in the shape the server stores and the form sends (title non-empty and trimmed, duration at least 0, description and release date each null or non-empty and trimmed), prefilling then submitting reproduces its title, description, duration and release date; a description of '' comes back as null, because the form sends a blank text as null |
| MovieForm.MovieFormView.constructor | untitled/src/app/features/movies/movie-form.component.ts:78-96 | edit mode comes from the route id; the form is prefilled exactly in edit mode with a movie in the navigation state |
| MovieForm.MovieFormView.Input | untitled/src/app/features/movies/movie-form.component.ts:71-76 | the controls change the form values and nothing else |
| MovieForm.MovieFormView.OnSubmit | untitled/src/app/features/movies/movie-form.component.ts:98-128 | clears the error; sends nothing for an invalid form; otherwise sends the payload as update in edit mode, else as create; success navigates to /movies; failure ends saving and shows "Speichern fehlgeschlagen." |
| ActorForm.Payload | untitled/src/app/features/actors/actor-form.component.ts:93-101 | a payload exists exactly when both names are non-empty; the names are trimmed and the birth date is trimmed or null when blank |
| ActorForm.Prefill | untitled/src/app/features/actors/actor-form.component.ts:81-88 | the form takes the actor's names, with a null birth date as '' |
| ActorForm.PrefillRoundTrip | untitled/src/app/features/actors/actor-form.component.ts:81-101 | for an actor whose names are non-empty and trimmed and whose birth date is null or non-empty and trimmed, prefilling then submitting reproduces its names and birth date |
| ActorForm.ActorFormView.constructor | untitled/src/app/features/actors/actor-form.component.ts:72-89 | edit mode from the route id; prefill exactly in edit mode with an actor in the navigation state |
| ActorForm.ActorFormView.Input | untitled/src/app/features/actors/actor-form.component.ts:66-70 | the controls change the form values and nothing else |
| ActorForm.ActorFormView.OnSubmit | untitled/src/app/features/actors/actor-form.component.ts:91-117 | as MovieFormView.OnSubmit, navigating to /actors |
| ScheduleForm.ToApiIso | untitled/src/app/features/schedules/schedule-form.component.ts:180-183 | appends ":00" exactly to 16-character values and returns any other value unchanged |
| ScheduleForm.ToApiIsoIdempotent | untitled/src/app/features/schedules/schedule-form.component.ts:180-183 | padding twice is padding once |
| ScheduleForm.Payload | untitled/src/app/features/schedules/schedule-form.component.ts:148-161 | a payload exists exactly when movie, actor and start are given; the ids pass unchanged, the start is padded, and the location is trimmed or null when blank |
| ScheduleForm.NullIdIsInvalid | untitled/src/app/features/schedules/schedule-form.component.ts:148-152 | the null-id return never fires after the validity check |
| ScheduleForm.Prefill | untitled/src/app/features/schedules/schedule-form.component.ts:135-143 | the form takes the ids, the start as `toDatetimeLocal` renders it, and the location with null as '' |
| ScheduleForm.PrefillRoundTrip | untitled/src/app/features/schedules/schedule-form.component.ts:135-161 | for a schedule whose location is null or non-empty and trimmed, and whose start `toDatetimeLocal` renders as 19 characters (so nothing is padded), prefilling then submitting unchanged sends back its ids, the rendered start and its location; a location such as ' K' would come back trimmed |
| ScheduleForm.ScheduleFormView.constructor | untitled/src/app/features/schedules/schedule-form.component.ts:104-110 | edit mode from the route id, then the lookups are loaded |
| ScheduleForm.ScheduleFormView.LoadLookups | untitled/src/app/features/schedules/schedule-form.component.ts:112-144 | each failed or null lookup gives an empty list for that select only; loading ends false; the form is prefilled exactly in edit mode with a schedule in the state |
| ScheduleForm.ScheduleFormView.Input | untitled/src/app/features/schedules/schedule-form.component.ts:91-96 | the controls change the form values and nothing else |
| ScheduleForm.ScheduleFormView.OnSubmit | untitled/src/app/features/schedules/schedule-form.component.ts:146-177 | clears the error; nothing sent for an invalid form or a null id; otherwise update in edit mode, else create; success navigates to /schedules; failure ends saving with the save error |
| Wire.RowLabelled | untitled/src/app/features/schedules/schedules-list.component.ts:105-112 | a row joined with a stored movie and actor is labelled with the title and "first last" |
| Wire.ListedSchedulesLabelled | WebApplication1/WebApplication1/Program.cs:212-217 | every row the server lists is labelled by its movie's title and its actor's "first last", never by '#id' |
| Wire.BlankTitlePassesFormNotServer | untitled/src/app/features/movies/movie-form.component.ts:72 | a title of spaces passes the form's `required` check and is sent as ''; both movie handlers then answer 400 "Title is required" and leave the store unchanged |
| Wire.BlankTitleFormExample | untitled/src/app/features/movies/movie-form.component.ts:72 | such a form exists: "   " with a duration of 120 |
| Wire.MoviePayloadJson | untitled/src/app/features/movies/movie-form.component.ts:87-112 | the edit payload of a stored movie in payload shape, as the handler binds it, carries the movie's own fields |
| Wire.MovieEditRoundTrip | WebApplication1/WebApplication1/Program.cs:78-98 | opening a stored movie in the form and saving it unchanged answers 200 with that movie and leaves the store as it was, provided its description and rendered release date are each null or non-empty and trimmed (the form trims them and sends '' as null, so a movie posted with description ' x ' or '' is changed by such a save) |
| Wire.ActorPayloadJson | untitled/src/app/features/actors/actor-form.component.ts:81-101 | the edit payload of a stored actor, as the handler binds it, carries the actor's own fields |
| Wire.ActorEditRoundTrip | WebApplication1/WebApplication1/Program.cs:147-163 | opening a stored actor in the form and saving it unchanged answers 200 with that actor and leaves the store as it was, provided its rendered birth date is null or non-empty and trimmed |

## Left out

- Hosting and setup are not modelled: the builder, dependency injection, SQLite, OpenAPI and HTTPS redirection. `EnsureCreated` is represented only by `Store.Empty`, which is the database on first start; a restart against an existing database file keeps its rows, and such a start state is not modelled apart from it satisfying `Store.Consistent`.
- Asynchronous persistence is not modelled. Each handler is one atomic step, and concurrent clients are not modelled.
- Store.CreateMovie, Store.CreateActor, Store.CreateSchedule: how SQLite picks ids is not visible in the code. The model hands out a counter that starts at 1 and grows by one. The handler contracts promise only an id no row of the table has. StoreProperties.CreatedMovieListedLast, StoreProperties.CreatedActorListedLast and StoreProperties.CreatedScheduleListedLast rest on the counter being above every present id. StoreProperties.InceptionRoundTrip, StoreProperties.LeoCreated, StoreProperties.LeoRenamed and StoreProperties.LeoBecomesLeonardo rest on the first id being 1. These are properties of the counter, not of anything the code shows.
- Store.DateOnly, Store.DateTime: dates are opaque values. Only `default(DateTime)` is distinguished, because only it is tested. JSON rendering and parsing of dates are parameters of `Wire`, related only by "parse after render is the identity".
- Text.IsWhiteSpace: only the ASCII white-space characters are modelled. .NET and JavaScript also treat other Unicode spaces as white space.
- Text.ToLower: only A–Z is lower-cased. Unicode case mapping is not modelled.
- Client.JsNumber: `Number(idParam)` is a parameter producing NaN or a real. Which strings parse, and non-integer ids reaching the API, are not modelled.
- MovieForm.FormValue: the duration control holds an integer or null. A non-integer number from `<input type="number">`, such as 1.5, is not modelled; nor is the framework's 400 when the server's `int` binding rejects it.
- ScheduleForm.PrefillRoundTrip: `toDatetimeLocal` is a parameter because it depends on the browser's time zone. So the full edit round trip of a schedule through the server, where the stored start would be unchanged, is not stated.
- HTTP transport is not modelled. Each call's outcome is a parameter: loaded body, JSON null or error for GETs, and success or failure for deletes and saves. The services are thin `HttpClient` wrappers and are not modelled.
- The `confirm()` prompt text, `console.error`, templates, routing, signals and RxJS mechanics are not modelled. The confirm answer is a parameter, and a method's return value is the request it sends.
- Store.ListSchedules, Endpoints.AppDb.GetSchedules: JSON serialisation of the loaded entity graph is not modelled. `Program.cs:212-217` includes each schedule's movie and actor, and `Models/Movie.cs:15` and `Models/Actor.cs:13` hold inverse `ScreeningSchedules` collections. No JSON `ReferenceHandler` is configured. Whether EF Core fills those collections, making System.Text.Json refuse the cycle, depends on the framework's runtime behaviour. So the model's 200 with details is not a claim that the real endpoint serialises successfully. The same goes for the `screeningSchedules` property that GET /movies and GET /actors emit, which the client models do not read.
- `Contracts/Schedules/ScheduleResponse.cs` is not modelled. No handler uses it.
- The non-unique indexes matter only in that duplicates are accepted, which StoreProperties.DuplicatesAccepted and StoreProperties.DuplicateSchedulesAccepted state.
