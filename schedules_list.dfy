/** features/schedules/schedules-list.component.ts: the searchable schedule list
  * and the labels it shows for a schedule's movie and actor. */
module SchedulesList {
  import opened Wrappers
  import opened Text
  import Seqs
  import opened Client
  import opened ClientModels

  /** The error shown when loading the list fails. */
  const LoadFailed := "Konnte Schedules nicht laden."

  /** `movieLabel`: the joined movie's title, or '#' and the movie id when
    * no movie is attached. */
  function MovieLabel(s: ScheduleWithDetails): (text: string)
    ensures s.movie.Some? ==> text == s.movie.value.title
    ensures s.movie.None? ==> text == "#" + IntToDecimal(s.movieId)
  {
    match s.movie
    case Some(m) => m.title
    case None => "#" + IntToDecimal(s.movieId)
  }

  /** `actorLabel`: the joined actor's first and last name separated by a
    * space and trimmed, or '#' and the actor id when no actor is attached. */
  function ActorLabel(s: ScheduleWithDetails): (text: string)
    ensures s.actor.Some? ==> text == Trim(s.actor.value.firstName + " " + s.actor.value.lastName)
    ensures s.actor.None? ==> text == "#" + IntToDecimal(s.actorId)
  {
    match s.actor
    case Some(a) => Trim(a.firstName + " " + a.lastName)
    case None => "#" + IntToDecimal(s.actorId)
  }

  /** For an actor whose names are non-empty and trimmed, as the server
    * stores them, the trim changes nothing: the label is "first last". */
  lemma ActorLabelOfStoredNames(s: ScheduleWithDetails)
    requires s.actor.Some?
    requires s.actor.value.firstName != [] && IsTrimmed(s.actor.value.firstName)
    requires s.actor.value.lastName != [] && IsTrimmed(s.actor.value.lastName)
    ensures ActorLabel(s) == s.actor.value.firstName + " " + s.actor.value.lastName
  {
    var full := s.actor.value.firstName + " " + s.actor.value.lastName;
    assert full[0] == s.actor.value.firstName[0];
    assert full[|full| - 1] == s.actor.value.lastName[|s.actor.value.lastName| - 1];
    TrimOfTrimmed(full);
  }

  /** A schedule matches the search key when the key occurs in its lower-cased
    * movie label, actor label, location (null as '') or start time. */
  predicate Matches(s: ScheduleWithDetails, q: string) {
    || Contains(ToLower(MovieLabel(s)), q)
    || Contains(ToLower(ActorLabel(s)), q)
    || Contains(ToLower(s.location.GetOr("")), q)
    || Contains(ToLower(s.startsAt), q)
  }

  /** `filtered`: the loaded schedules, in order, that match the query; a blank
    * query keeps them all. */
  function Filter(schedules: seq<ScheduleWithDetails>, query: string): (r: seq<ScheduleWithDetails>)
    ensures Seqs.IsSubsequence(r, schedules)
    ensures IsBlank(query) ==> r == schedules
    ensures !IsBlank(query) ==> forall m :: m in r <==> m in schedules && Matches(m, SearchKey(query))
    ensures !IsBlank(query) ==> forall m :: multiset(r)[m] == if Matches(m, SearchKey(query)) then multiset(schedules)[m] else 0
  {
    var r := SearchFilter(schedules, query, Matches);
    assert !IsBlank(query) ==> forall m :: m in r <==> m in schedules && Matches(m, SearchKey(query)) by {
      if !IsBlank(query) {
        forall m ensures m in r <==> m in schedules && Matches(m, SearchKey(query)) {
          assert m in r <==> multiset(r)[m] > 0;
          assert m in schedules <==> multiset(schedules)[m] > 0;
        }
      }
    }
    r
  }

  /** The component's state: the loaded schedules, the search query, the
    * loading flag and the error message (None is null). */
  class SchedulesListView {
    var loading: bool
    var error: Option<string>
    var schedules: seq<ScheduleWithDetails>
    var query: string

    /** The rows the table shows. */
    function Filtered(): seq<ScheduleWithDetails>
      reads this
    {
      Filter(schedules, query)
    }

    /** The constructor starts with an empty list and reloads it. */
    constructor (response: Fetch<seq<ScheduleWithDetails>>)
      ensures query == [] && !loading
      ensures response.Failed? ==> error == Some(LoadFailed) && schedules == []
      ensures response.Loaded? ==> error == None && schedules == response.body.GetOr([])
    {
      loading := false;
      error := None;
      schedules := [];
      query := "";
      new;
      Reload(response);
    }

    /** The search box's input binding. */
    method SetQuery(q: string)
      modifies this
      ensures query == q && schedules == old(schedules) && error == old(error) && loading == old(loading)
    {
      query := q;
    }

    /** `reload`: clears the error, loads, and ends with loading false; a
      * failure keeps the previous list and shows the load error. */
    method Reload(response: Fetch<seq<ScheduleWithDetails>>)
      modifies this
      ensures !loading && query == old(query)
      ensures response.Failed? ==> error == Some(LoadFailed) && schedules == old(schedules)
      ensures response.Loaded? ==> error == None && schedules == response.body.GetOr([])
    {
      error := None;
      loading := true;
      match response {
        case Loaded(body) =>
          schedules := body.GetOr([]);
        case Failed =>
          error := Some(LoadFailed);
      }
      loading := false;
    }

    /** `onDelete`: returns the id of the DELETE request sent, None when the
      * user declined. A successful delete reloads; a failed one shows the
      * delete error and keeps the list. */
    method OnDelete(schedule: ScheduleWithDetails, confirmed: bool, deleteOk: bool, reloadResponse: Fetch<seq<ScheduleWithDetails>>)
      returns (sent: Option<int>)
      modifies this
      ensures sent == (if confirmed then Some(schedule.id) else None)
      ensures !confirmed ==> schedules == old(schedules) && error == old(error) && loading == old(loading)
      ensures query == old(query)
      ensures confirmed && !deleteOk ==> error == Some(DeleteFailed) && schedules == old(schedules) && loading == old(loading)
      ensures confirmed && deleteOk ==> !loading
      ensures confirmed && deleteOk && reloadResponse.Failed? ==> error == Some(LoadFailed) && schedules == old(schedules)
      ensures confirmed && deleteOk && reloadResponse.Loaded? ==> error == None && schedules == reloadResponse.body.GetOr([])
    {
      if !confirmed {
        return None;
      }
      sent := Some(schedule.id);
      if deleteOk {
        Reload(reloadResponse);
      } else {
        error := Some(DeleteFailed);
      }
    }
  }
}
