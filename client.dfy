/** What the browser views share: the outcome of an HTTP call, the route's id
  * parameter, optional text fields and the save request a form sends. */
module Client {
  import opened Wrappers
  import opened Text
  import Seqs

  /** The outcome of an HTTP call: a body (None when the server sent JSON
    * null) or an error the observable reports. */
  datatype Fetch<+T> = Loaded(body: Option<T>) | Failed

  /** A JavaScript number as `Number(string)` produces it. */
  datatype JsNumber = NaN | Num(value: real)

  /** The form's `id`: `idParam ? Number(idParam) : null`; a missing or empty
    * parameter gives null. `toNumber` is JavaScript's `Number`. */
  function RouteId(idParam: Option<string>, toNumber: string -> JsNumber): (id: Option<JsNumber>)
    ensures id.None? <==> idParam.None? || idParam.value == []
    ensures id.Some? ==> id.value == toNumber(idParam.value)
  {
    match idParam
    case None => None
    case Some(p) => if p == [] then None else Some(toNumber(p))
  }

  /** `isEdit`: the id is present and is not NaN. */
  predicate IsEditMode(id: Option<JsNumber>) {
    id.Some? && id.value.Num?
  }

  /** A form edits exactly when the route carries a non-empty id that parses to a number. */
  lemma EditModeIff(idParam: Option<string>, toNumber: string -> JsNumber)
    ensures IsEditMode(RouteId(idParam, toNumber)) <==>
      idParam.Some? && idParam.value != [] && toNumber(idParam.value).Num?
  {
  }

  /** The request a form sends on submit. */
  datatype SaveRequest<+P> = Create(payload: P) | Update(id: real, payload: P)

  /** `isEdit() && id !== null ? update(id, payload) : create(payload)`. */
  function ChooseRequest<P>(isEdit: bool, id: Option<JsNumber>, payload: P): (r: SaveRequest<P>)
    requires isEdit ==> IsEditMode(id)
    ensures r.payload == payload
    ensures r.Update? <==> isEdit
    ensures r.Update? ==> id == Some(Num(r.id))
  {
    if isEdit && id.Some? then Update(id.value.value, payload) else Create(payload)
  }

  /** An optional text control as the payload carries it:
    * `v?.trim() ? v.trim() : null`. */
  function OptionalText(v: Option<string>): (r: Option<string>)
    ensures r.None? <==> v.None? || IsBlank(v.value)
    ensures r.Some? ==> r.value == Trim(v.value) && r.value != [] && IsTrimmed(r.value)
  {
    match v
    case None => None
    case Some(s) =>
      TrimEmptyIffBlank(s);
      if Trim(s) == [] then None else Some(Trim(s))
  }

  /** A value the form prefilled from a record (`x ?? ''`) comes back as the
    * record's value when that value is already in the shape the payload makes. */
  lemma OptionalTextOfPrefill(x: Option<string>)
    requires x.Some? ==> x.value != [] && IsTrimmed(x.value)
    ensures OptionalText(Some(x.GetOr(""))) == x
  {
    if x.Some? {
      TrimOfTrimmed(x.value);
    }
  }

  /** A lookup list as the schedule form keeps it: `catchError(() => of([]))`
    * followed by `list ?? []`. */
  function ListOrEmpty<T>(f: Fetch<seq<T>>): (r: seq<T>)
    ensures f.Loaded? && f.body.Some? ==> r == f.body.value
    ensures f.Failed? || f.body.None? ==> r == []
  {
    match f
    case Loaded(Some(xs)) => xs
    case _ => []
  }

  /** The search key of a list view: `query.trim().toLowerCase()`; it is
    * empty, and the view shows everything, exactly when the query is blank. */
  function SearchKey(query: string): (q: string)
    ensures q == [] <==> IsBlank(query)
    ensures |q| <= |query|
  {
    TrimEmptyIffBlank(query);
    ToLower(Trim(query))
  }

  /** A list view's `filtered`: everything for a blank query, otherwise the
    * items, in order, that `matches` the search key. */
  function SearchFilter<T(==,!new)>(items: seq<T>, query: string, matches: (T, string) -> bool): (r: seq<T>)
    ensures Seqs.IsSubsequence(r, items)
    ensures IsBlank(query) ==> r == items
    ensures !IsBlank(query) ==> forall i :: 0 <= i < |r| ==> r[i] in items && matches(r[i], SearchKey(query))
    ensures !IsBlank(query) ==> forall i :: 0 <= i < |items| && matches(items[i], SearchKey(query)) ==> items[i] in r
    ensures !IsBlank(query) ==> forall x :: multiset(r)[x] == if matches(x, SearchKey(query)) then multiset(items)[x] else 0
  {
    var q := SearchKey(query);
    if q == [] then
      Seqs.SubsequenceOfSelf(items);
      items
    else
      var p := (x: T) => matches(x, q);
      Seqs.KeepIsSubsequence(items, p);
      Seqs.Keep(items, p)
  }

  /** The error a list view shows after a failed delete. */
  const DeleteFailed := "Löschen fehlgeschlagen."

  /** The error a form shows after a failed save. */
  const SaveFailed := "Speichern fehlgeschlagen."
}
