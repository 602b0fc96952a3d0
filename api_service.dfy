/** `ApiService`: the object that holds the meal list and the selected meal,
    and the three operations that update them. The network is a parameter:
    `get` maps an address to what requesting it yields. */
module Client {
  import opened Json
  import opened MealData
  import opened NameOrder
  import opened Search

  /** What one request yields: `URL(string:)` rejects the address, the
      transfer fails, the body is not JSON, or a parsed JSON body. */
  datatype Response =
    | BadUrl
    | TransportError
    | NotJson
    | Parsed(body: JVal)

  /** The list of desserts. */
  const ListEndpoint: string := "https://themealdb.com/api/json/v1/1/filter.php?c=Dessert"

  const LookupPrefix: string := "https://themealdb.com/api/json/v1/1/lookup.php?i="

  /** The details of one meal: the id is interpolated as is. */
  function LookupEndpoint(id: string): (u: string)
    ensures |u| == |LookupPrefix| + |id|
    ensures u[..|LookupPrefix|] == LookupPrefix && u[|LookupPrefix|..] == id
  {
    LookupPrefix + id
  }

  /** The `do` block of both fetches up to the update: `None` for every
      outcome that reaches `catch` or the `guard ... else { return }`. A
      response loads exactly when its body is an object whose `meals` is an
      array every element of which decodes as a meal; it then yields one
      meal per element, in order. */
  function Load(resp: Response): (r: Option<seq<Meal>>)
    ensures r.Some? <==>
      && resp.Parsed? && resp.body.JObj?
      && "meals" in resp.body.fields && resp.body.fields["meals"].JArr?
      && forall k :: 0 <= k < |resp.body.fields["meals"].items| ==>
           DecodeMeal(resp.body.fields["meals"].items[k]).Ok?
    ensures r.Some? ==>
      var items := resp.body.fields["meals"].items;
      |r.value| == |items| && forall k :: 0 <= k < |items| ==> DecodeMeal(items[k]) == Ok(r.value[k])
  {
    if !resp.Parsed? then None
    else if !resp.body.JObj? then
      assert DecodeMealResults(resp.body).Err?;
      None
    else
      DecodeMealResultsIff(resp.body.fields);
      match DecodeMealResults(resp.body)
      case Ok(results) => Some(results.meals)
      case Err(_) => None
  }

  /** The lookup service answers an unknown id with `{"meals": null}`: that
      fails to decode, so it loads nothing. */
  lemma NullMealsLoadNothing()
    ensures Load(Parsed(JObj(map["meals" := JNull]))) == None
  {
    assert DecodeMealResults(JObj(map["meals" := JNull])) == Err(ValueNotFound("meals"));
  }

  /** An empty array loads as an empty list, not as a failure. */
  lemma EmptyArrayLoadsEmpty()
    ensures Load(Parsed(JObj(map["meals" := JArr([])]))) == Some([])
  {
    assert DecodeMealArray([]) == Ok([]);
  }

  /** The two published properties of `ApiService`. */
  datatype ClientState = ClientState(meals: seq<Meal>, selectedMeal: Option<Meal>)

  /** The state a new `ApiService` starts in. */
  const Initial: ClientState := ClientState([], None)

  /** `fetchMeals`: on success `meals` becomes the loaded list sorted by
      name; any failure leaves the state as it was; the selection is never
      touched. */
  function FetchMealsStep(st: ClientState, resp: Response): (r: ClientState)
    ensures r.selectedMeal == st.selectedMeal
    ensures Load(resp).None? ==> r == st
    ensures Load(resp).Some? ==>
      SortedByName(r.meals) && multiset(r.meals) == multiset(Load(resp).value)
  {
    match Load(resp)
    case None => st
    case Some(ms) => st.(meals := SortByName(ms))
  }

  /** `fetchMealDetails`: the selection is cleared first, then set to the
      first loaded meal if there is one; `meals` is never touched. */
  function FetchDetailsStep(st: ClientState, resp: Response): (r: ClientState)
    ensures r.meals == st.meals
    ensures r.selectedMeal.Some? <==> Load(resp).Some? && Load(resp).value != []
    ensures r.selectedMeal.Some? ==> r.selectedMeal.value == Load(resp).value[0]
  {
    var cleared := st.(selectedMeal := None);
    match Load(resp)
    case Some(ms) => if ms != [] then cleared.(selectedMeal := Some(ms[0])) else cleared
    case None => cleared
  }

  /** `clearSelectedMeal`. */
  function ClearStep(st: ClientState): (r: ClientState)
    ensures r.selectedMeal == None && r.meals == st.meals
  {
    st.(selectedMeal := None)
  }

  /** The invariant `ApiService` keeps: its list is sorted by name. */
  ghost predicate MealsSorted(st: ClientState) {
    SortedByName(st.meals)
  }

  lemma InitialMealsSorted()
    ensures MealsSorted(Initial) && Initial.selectedMeal == None && Initial.meals == []
  {
  }

  /** Every operation keeps the list sorted: it is only ever replaced by a
      sorted list. */
  lemma StepsKeepMealsSorted(st: ClientState, resp: Response)
    requires MealsSorted(st)
    ensures MealsSorted(FetchMealsStep(st, resp))
    ensures MealsSorted(FetchDetailsStep(st, resp))
    ensures MealsSorted(ClearStep(st))
  {
  }

  /** Clearing twice is clearing once. */
  lemma ClearIdempotent(st: ClientState)
    ensures ClearStep(ClearStep(st)) == ClearStep(st)
  {
  }

  /** Because the selection is cleared before the request, what a detail
      fetch leaves selected depends only on its own response. */
  lemma DetailsForgetEarlierSelection(st: ClientState, other: Option<Meal>, resp: Response)
    ensures FetchDetailsStep(st, resp) == FetchDetailsStep(st.(selectedMeal := other), resp)
  {
  }

  /** A failed detail fetch, whatever the failure, leaves nothing selected,
      even where a meal was selected before. */
  lemma FailedDetailsClearSelection(st: ClientState, resp: Response)
    requires Load(resp).None?
    ensures FetchDetailsStep(st, resp).selectedMeal == None
  {
  }

  /** The two fetches touch different properties, so their order does not
      matter. */
  lemma FetchesCommute(st: ClientState, listResp: Response, detailResp: Response)
    ensures FetchDetailsStep(FetchMealsStep(st, listResp), detailResp)
         == FetchMealsStep(FetchDetailsStep(st, detailResp), listResp)
  {
  }

  /** What the invariant is for: the list the search box shows, filtered
      from `meals`, is in name order too. */
  lemma SearchShowsSortedList(st: ClientState, query: string)
    requires MealsSorted(st)
    ensures SortedByName(FilteredMeals(st.meals, query))
  {
    FilteredKeepsNameOrder(st.meals, query);
  }

  /** Two successful list fetches of the same meals show the same names in
      the same order, whatever order the meals arrived in. */
  lemma FetchMealsNamesDeterminedByContent(st: ClientState, r1: Response, r2: Response)
    requires Load(r1).Some? && Load(r2).Some?
    requires multiset(Load(r1).value) == multiset(Load(r2).value)
    ensures Names(FetchMealsStep(st, r1).meals) == Names(FetchMealsStep(st, r2).meals)
  {
    SortedNamesUnique(FetchMealsStep(st, r1).meals, FetchMealsStep(st, r2).meals);
  }

  class ApiService {
    var meals: seq<Meal>
    var selectedMeal: Option<Meal>

    function State(): ClientState
      reads this
    {
      ClientState(meals, selectedMeal)
    }

    /** `meals` is always name-sorted, so every list the search box shows
        is too (`SearchShowsSortedList`). */
    ghost predicate Valid()
      reads this
    {
      MealsSorted(State())
    }

    constructor()
      ensures State() == Initial
      ensures Valid()
    {
      meals := [];
      selectedMeal := None;
    }

    /** `fetchMeals()`: requests the dessert list and, if it decodes,
        replaces `meals` by it sorted by name. */
    method FetchMeals(get: string -> Response)
      modifies this
      ensures State() == FetchMealsStep(old(State()), get(ListEndpoint))
      ensures selectedMeal == old(selectedMeal)
      ensures Load(get(ListEndpoint)).None? ==> meals == old(meals)
      ensures Load(get(ListEndpoint)).Some? ==>
        SortedByName(meals) && multiset(meals) == multiset(Load(get(ListEndpoint)).value)
      ensures old(Valid()) ==> Valid()
    {
      var resp := get(ListEndpoint);
      if !resp.Parsed? {
        return;
      }
      var results := DecodeMealResults(resp.body);
      if results.Err? {
        return;
      }
      meals := SortByName(results.value.meals);
    }

    /** `fetchMealDetails(id:)`: clears the selection, requests the meal and
        selects the first meal of the answer, if any. */
    method FetchMealDetails(id: string, get: string -> Response)
      modifies this
      ensures State() == FetchDetailsStep(old(State()), get(LookupEndpoint(id)))
      ensures meals == old(meals)
      ensures var loaded := Load(get(LookupEndpoint(id)));
        selectedMeal == if loaded.Some? && loaded.value != [] then Some(loaded.value[0]) else None
      ensures old(Valid()) ==> Valid()
    {
      selectedMeal := None;
      var resp := get(LookupEndpoint(id));
      if !resp.Parsed? {
        return;
      }
      var results := DecodeMealResults(resp.body);
      if results.Err? {
        return;
      }
      if results.value.meals != [] {
        selectedMeal := Some(results.value.meals[0]);
      }
    }

    /** `clearSelectedMeal()`. */
    method ClearSelectedMeal()
      modifies this
      ensures State() == ClearStep(old(State()))
      ensures selectedMeal == None && meals == old(meals)
      ensures old(Valid()) ==> Valid()
    {
      selectedMeal := None;
    }
  }
}
