/** features/actors/actors-list.component.ts: the searchable actor list. */
module ActorsList {
  import opened Wrappers
  import opened Text
  import Seqs
  import opened Client
  import opened ClientModels

  /** The error shown when loading the list fails. */
  const LoadFailed := "Konnte Actors nicht laden."

  /** An actor matches the search key when the key occurs in its lower-cased
    * first name, last name or birth date (null as ''). */
  predicate Matches(a: Actor, q: string) {
    || Contains(ToLower(a.firstName), q)
    || Contains(ToLower(a.lastName), q)
    || Contains(ToLower(a.birthDate.GetOr("")), q)
  }

  /** `filtered`: the loaded actors, in order, that match the query; a blank
    * query keeps them all. */
  function Filter(actors: seq<Actor>, query: string): (r: seq<Actor>)
    ensures Seqs.IsSubsequence(r, actors)
    ensures IsBlank(query) ==> r == actors
    ensures !IsBlank(query) ==> forall m :: m in r <==> m in actors && Matches(m, SearchKey(query))
    ensures !IsBlank(query) ==> forall m :: multiset(r)[m] == if Matches(m, SearchKey(query)) then multiset(actors)[m] else 0
  {
    var r := SearchFilter(actors, query, Matches);
    assert !IsBlank(query) ==> forall m :: m in r <==> m in actors && Matches(m, SearchKey(query)) by {
      if !IsBlank(query) {
        forall m ensures m in r <==> m in actors && Matches(m, SearchKey(query)) {
          assert m in r <==> multiset(r)[m] > 0;
          assert m in actors <==> multiset(actors)[m] > 0;
        }
      }
    }
    r
  }

  /** The component's state: the loaded actors, the search query, the
    * loading flag and the error message (None is null). */
  class ActorsListView {
    var loading: bool
    var error: Option<string>
    var actors: seq<Actor>
    var query: string

    /** The rows the table shows. */
    function Filtered(): seq<Actor>
      reads this
    {
      Filter(actors, query)
    }

    /** The constructor starts with an empty list and reloads it. */
    constructor (response: Fetch<seq<Actor>>)
      ensures query == [] && !loading
      ensures response.Failed? ==> error == Some(LoadFailed) && actors == []
      ensures response.Loaded? ==> error == None && actors == response.body.GetOr([])
    {
      loading := false;
      error := None;
      actors := [];
      query := "";
      new;
      Reload(response);
    }

    /** The search box's input binding. */
    method SetQuery(q: string)
      modifies this
      ensures query == q && actors == old(actors) && error == old(error) && loading == old(loading)
    {
      query := q;
    }

    /** `reload`: clears the error, loads, and ends with loading false; a
      * failure keeps the previous list and shows the load error. */
    method Reload(response: Fetch<seq<Actor>>)
      modifies this
      ensures !loading && query == old(query)
      ensures response.Failed? ==> error == Some(LoadFailed) && actors == old(actors)
      ensures response.Loaded? ==> error == None && actors == response.body.GetOr([])
    {
      error := None;
      loading := true;
      match response {
        case Loaded(body) =>
          actors := body.GetOr([]);
        case Failed =>
          error := Some(LoadFailed);
      }
      loading := false;
    }

    /** `onDelete`: returns the id of the DELETE request sent, None when the
      * user declined. A successful delete reloads; a failed one shows the
      * delete error and keeps the list. */
    method OnDelete(actor: Actor, confirmed: bool, deleteOk: bool, reloadResponse: Fetch<seq<Actor>>)
      returns (sent: Option<int>)
      modifies this
      ensures sent == (if confirmed then Some(actor.id) else None)
      ensures !confirmed ==> actors == old(actors) && error == old(error) && loading == old(loading)
      ensures query == old(query)
      ensures confirmed && !deleteOk ==> error == Some(DeleteFailed) && actors == old(actors) && loading == old(loading)
      ensures confirmed && deleteOk ==> !loading
      ensures confirmed && deleteOk && reloadResponse.Failed? ==> error == Some(LoadFailed) && actors == old(actors)
      ensures confirmed && deleteOk && reloadResponse.Loaded? ==> error == None && actors == reloadResponse.body.GetOr([])
    {
      if !confirmed {
        return None;
      }
      sent := Some(actor.id);
      if deleteOk {
        Reload(reloadResponse);
      } else {
        error := Some(DeleteFailed);
      }
    }
  }
}
