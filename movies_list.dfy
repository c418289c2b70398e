/** features/movies/movies-list.component.ts: the searchable movie list. */
module MoviesList {
  import opened Wrappers
  import opened Text
  import Seqs
  import opened Client
  import opened ClientModels

  /** The error shown when loading the list fails. */
  const LoadFailed := "Konnte Movies nicht laden."

  /** A movie matches the search key when the key occurs in its lower-cased
    * title, description (null as ''), decimal duration or release date (null as ''). */
  predicate Matches(m: Movie, q: string) {
    || Contains(ToLower(m.title), q)
    || Contains(ToLower(m.description.GetOr("")), q)
    || Contains(ToLower(IntToDecimal(m.durationMinutes)), q)
    || Contains(ToLower(m.releaseDate.GetOr("")), q)
  }

  /** `filtered`: the loaded movies, in order, that match the query; a blank
    * query keeps them all. */
  function Filter(movies: seq<Movie>, query: string): (r: seq<Movie>)
    ensures Seqs.IsSubsequence(r, movies)
    ensures IsBlank(query) ==> r == movies
    ensures !IsBlank(query) ==> forall m :: m in r <==> m in movies && Matches(m, SearchKey(query))
    ensures !IsBlank(query) ==> forall m :: multiset(r)[m] == if Matches(m, SearchKey(query)) then multiset(movies)[m] else 0
  {
    var r := SearchFilter(movies, query, Matches);
    assert !IsBlank(query) ==> forall m :: m in r <==> m in movies && Matches(m, SearchKey(query)) by {
      if !IsBlank(query) {
        forall m ensures m in r <==> m in movies && Matches(m, SearchKey(query)) {
          assert m in r <==> multiset(r)[m] > 0;
          assert m in movies <==> multiset(movies)[m] > 0;
        }
      }
    }
    r
  }

  /** The component's state: the loaded movies, the search query, the
    * loading flag and the error message (None is null). */
  class MoviesListView {
    var loading: bool
    var error: Option<string>
    var movies: seq<Movie>
    var query: string

    /** The rows the table shows. */
    function Filtered(): seq<Movie>
      reads this
    {
      Filter(movies, query)
    }

    /** The constructor starts with an empty list and reloads it. */
    constructor (response: Fetch<seq<Movie>>)
      ensures query == [] && !loading
      ensures response.Failed? ==> error == Some(LoadFailed) && movies == []
      ensures response.Loaded? ==> error == None && movies == response.body.GetOr([])
    {
      loading := false;
      error := None;
      movies := [];
      query := "";
      new;
      Reload(response);
    }

    /** The search box's input binding. */
    method SetQuery(q: string)
      modifies this
      ensures query == q && movies == old(movies) && error == old(error) && loading == old(loading)
    {
      query := q;
    }

    /** `reload`: clears the error, loads, and ends with loading false; a
      * failure keeps the previous list and shows the load error. */
    method Reload(response: Fetch<seq<Movie>>)
      modifies this
      ensures !loading && query == old(query)
      ensures response.Failed? ==> error == Some(LoadFailed) && movies == old(movies)
      ensures response.Loaded? ==> error == None && movies == response.body.GetOr([])
    {
      error := None;
      loading := true;
      match response {
        case Loaded(body) =>
          movies := body.GetOr([]);
        case Failed =>
          error := Some(LoadFailed);
      }
      loading := false;
    }

    /** `onDelete`: returns the id of the DELETE request sent, None when the
      * user declined. A successful delete reloads; a failed one shows the
      * delete error and keeps the list. */
    method OnDelete(movie: Movie, confirmed: bool, deleteOk: bool, reloadResponse: Fetch<seq<Movie>>)
      returns (sent: Option<int>)
      modifies this
      ensures sent == (if confirmed then Some(movie.id) else None)
      ensures !confirmed ==> movies == old(movies) && error == old(error) && loading == old(loading)
      ensures query == old(query)
      ensures confirmed && !deleteOk ==> error == Some(DeleteFailed) && movies == old(movies) && loading == old(loading)
      ensures confirmed && deleteOk ==> !loading
      ensures confirmed && deleteOk && reloadResponse.Failed? ==> error == Some(LoadFailed) && movies == old(movies)
      ensures confirmed && deleteOk && reloadResponse.Loaded? ==> error == None && movies == reloadResponse.body.GetOr([])
    {
      if !confirmed {
        return None;
      }
      sent := Some(movie.id);
      if deleteOk {
        Reload(reloadResponse);
      } else {
        error := Some(DeleteFailed);
      }
    }
  }
}
