/** The search page's filter bar: the current filter values read from the
    query string, and `updateParams`, which sets or removes one key and
    navigates to the result. */
module SearchFilters {
  import opened Wrappers
  import opened FormUrlEncoded
  import opened SearchParams

  /** What the filter controls show. */
  datatype Filters = Filters(category: string, dateFrom: string, dateTo: string,
                             sortBy: string, sortOrder: string)

  const DefaultSortBy := "publishedAt"
  const DefaultSortOrder := "desc"
  /** The category option that stands for "no category filter". */
  const AllCategories := "all"
  const SearchPath := "/search"

  /** `searchParams.get(k) || fallback`: `null` and `""` are both falsy. */
  function ValueOr(ps: Params, k: string, fallback: string): (r: string)
    ensures Get(ps, k).Some? && Get(ps, k).value != "" ==> r == Get(ps, k).value
    ensures Get(ps, k).None? || Get(ps, k) == Some("") ==> r == fallback
  {
    match Get(ps, k)
    case Some(v) => if v != "" then v else fallback
    case None => fallback
  }

  /** The filter values shown for the current query string. */
  function Current(ps: Params): (f: Filters)
    ensures f.sortBy != "" && f.sortOrder != ""
    ensures !Has(ps, "sortBy") ==> f.sortBy == DefaultSortBy
    ensures !Has(ps, "sortOrder") ==> f.sortOrder == DefaultSortOrder
    ensures !Has(ps, "category") ==> f.category == ""
    ensures !Has(ps, "dateFrom") ==> f.dateFrom == ""
    ensures !Has(ps, "dateTo") ==> f.dateTo == ""
  {
    Filters(ValueOr(ps, "category", ""), ValueOr(ps, "dateFrom", ""), ValueOr(ps, "dateTo", ""),
            ValueOr(ps, "sortBy", DefaultSortBy), ValueOr(ps, "sortOrder", DefaultSortOrder))
  }

  /** The value given to the category select: `currentCategory || 'all'`. */
  function CategorySelectValue(f: Filters): (r: string)
    ensures r != ""
    ensures r == AllCategories <==> f.category == "" || f.category == AllCategories
    ensures f.category != "" ==> r == f.category
  {
    if f.category != "" then f.category else AllCategories
  }

  /** A value that keeps its key in the query: non-empty and not `"all"`. */
  predicate Keeps(v: string) {
    v != "" && v != AllCategories
  }

  /** The list `updateParams(k, v)` builds from the current one. */
  function Updated(ps: Params, k: string, v: string): (r: Params)
    ensures Keeps(v) ==> Get(r, k) == Some(v) && Count(r, k) == 1
    ensures !Keeps(v) ==> !Has(r, k)
    ensures Delete(r, k) == Delete(ps, k)
  {
    if Keeps(v) then
      SetMeaning(ps, k, v);
      Set(ps, k, v)
    else
      DeleteIdempotent(ps, k);
      Delete(ps, k)
  }

  /** `updateParams(k, v)`: the URL navigated to. The current list goes
      through its own serialization first, as the component copies it with
      `new URLSearchParams(searchParams.toString())`. */
  function UpdateParams(ps: Params, k: string, v: string): (target: string)
    ensures |target| >= |SearchPath| + 1
    ensures target[..|SearchPath| + 1] == SearchPath + "?"
    ensures FromString(target[|SearchPath| + 1..]) == Updated(ps, k, v)
  {
    ParseSerialize(ps);
    var r := Updated(FromString(Serialize(ps)), k, v);
    ParseSerialize(r);
    var target := SearchPath + "?" + Serialize(r);
    assert target[|SearchPath| + 1..] == Serialize(r);
    target
  }

  /** The target is a bare `"/search?"` exactly when no key is left. */
  lemma BareTarget(ps: Params, k: string, v: string)
    ensures UpdateParams(ps, k, v) == SearchPath + "?" <==> Updated(ps, k, v) == []
  {
    ParseSerialize(ps);
    var s := Serialize(Updated(ps, k, v));
    assert UpdateParams(ps, k, v) == SearchPath + "?" + s;
    if UpdateParams(ps, k, v) == SearchPath + "?" {
      assert |s| == 0;
    }
  }

  /** Other keys keep their values. */
  lemma UpdateKeepsOthers(ps: Params, k: string, v: string, other: string)
    requires other != k
    ensures Get(Updated(ps, k, v), other) == Get(ps, other)
  {
    DeleteKeepsOthers(Updated(ps, k, v), k, other);
    DeleteKeepsOthers(ps, k, other);
  }

  /** The same update twice is the update once. */
  lemma UpdateIdempotent(ps: Params, k: string, v: string)
    ensures Updated(Updated(ps, k, v), k, v) == Updated(ps, k, v)
    ensures UpdateParams(FromString(UpdateParams(ps, k, v)[|SearchPath| + 1..]), k, v)
         == UpdateParams(ps, k, v)
  {
    if Keeps(v) {
      SetIdempotent(ps, k, v);
    } else {
      DeleteIdempotent(ps, k);
    }
    ParseSerialize(ps);
    ParseSerialize(Updated(ps, k, v));
  }

  /** After choosing a category, the select on the page navigated to shows
      that choice; choosing "all" or nothing shows "all". */
  lemma CategoryChoiceShown(ps: Params, v: string)
    ensures CategorySelectValue(Current(FromString(UpdateParams(ps, "category", v)[|SearchPath| + 1..])))
         == if v == "" then AllCategories else v
  {
  }

  /** After choosing a sort field, the page navigated to sorts by it; the
      other filters are as they were. */
  lemma SortChoiceShown(ps: Params, v: string)
    requires Keeps(v)
    ensures Current(Updated(ps, "sortBy", v))
         == Current(ps).(sortBy := v)
  {
    UpdateKeepsOthers(ps, "sortBy", v, "category");
    UpdateKeepsOthers(ps, "sortBy", v, "dateFrom");
    UpdateKeepsOthers(ps, "sortBy", v, "dateTo");
    UpdateKeepsOthers(ps, "sortBy", v, "sortOrder");
  }
}

/** The search box: the effect that writes the debounced text into the `q`
    parameter and navigates, and the effect that copies `q` back into the
    `value` state the debounce watches. */
module Search {
  import opened Wrappers
  import opened FormUrlEncoded
  import opened SearchParams
  import SearchFilters

  const QueryKey := "q"

  /** The list the `q` effect builds: `q` set to the debounced text, or
      removed when the text is empty. */
  function WithQuery(ps: Params, debounced: string): (r: Params)
    ensures debounced != "" ==> Get(r, QueryKey) == Some(debounced) && Count(r, QueryKey) == 1
    ensures debounced == "" ==> !Has(r, QueryKey)
    ensures Delete(r, QueryKey) == Delete(ps, QueryKey)
  {
    if debounced != "" then
      SetMeaning(ps, QueryKey, debounced);
      Set(ps, QueryKey, debounced)
    else
      DeleteIdempotent(ps, QueryKey);
      Delete(ps, QueryKey)
  }

  datatype Navigation = Stay | Push(url: string)

  /** The `?`-prefixed query suffix, empty for an empty serialization. */
  function QuerySuffix(search: string): (r: string)
    ensures search == "" ==> r == ""
    ensures search != "" ==> |r| == |search| + 1 && r[0] == '?' && r[1..] == search
  {
    if search != "" then "?" + search else ""
  }

  /** One run of the `q` effect on the current query list and the
      debounced text. */
  function QueryEffect(ps: Params, debounced: string): (nav: Navigation)
    ensures nav.Push? <==> WithQuery(ps, debounced) != ps
    ensures nav.Push? ==>
      |nav.url| >= |SearchFilters.SearchPath|
      && nav.url[..|SearchFilters.SearchPath|] == SearchFilters.SearchPath
      && ListOf(nav.url) == WithQuery(ps, debounced)
      && nav.url[|nav.url| - 1] != '?'
  {
    ParseSerialize(ps);
    SerializeInjective(ps, WithQuery(ps, debounced));
    PushedUrl(WithQuery(ps, debounced));
    var params := WithQuery(FromString(Serialize(ps)), debounced);
    var search := Serialize(params);
    if Serialize(ps) != search then Push(SearchFilters.SearchPath + QuerySuffix(search)) else Stay
  }

  /** The query list of a `/search` URL the effect navigates to. */
  function ListOf(url: string): (r: Params)
    requires |url| >= |SearchFilters.SearchPath|
  {
    FromString(url[|SearchFilters.SearchPath|..])
  }

  /** The URL the effect pushes for a list: "/search", then the list's query
      after a "?" unless it is empty. It starts with "/search", its query is
      the list again, and it never ends in a bare "?". */
  lemma PushedUrl(params: Params)
    ensures var url := SearchFilters.SearchPath + QuerySuffix(Serialize(params));
      |url| >= |SearchFilters.SearchPath|
      && url[..|SearchFilters.SearchPath|] == SearchFilters.SearchPath
      && ListOf(url) == params
      && url[|url| - 1] != '?'
  {
    var search := Serialize(params);
    var url := SearchFilters.SearchPath + QuerySuffix(search);
    ParseSerialize(params);
    assert url[|SearchFilters.SearchPath|..] == QuerySuffix(search);
    if search == "" {
      assert params == [];
    } else {
      assert url[|url| - 1] == search[|search| - 1];
    }
  }

  /** Once the effect has navigated, running it again with the same text on
      the list it navigated to does not navigate again. */
  lemma QueryEffectSettles(ps: Params, debounced: string)
    requires QueryEffect(ps, debounced).Push?
    ensures QueryEffect(ListOf(QueryEffect(ps, debounced).url), debounced) == Stay
  {
    var next := WithQuery(ps, debounced);
    if debounced != "" {
      SetIdempotent(ps, QueryKey, debounced);
    } else {
      DeleteIdempotent(ps, QueryKey);
    }
    assert WithQuery(next, debounced) == next;
  }

  /** The second effect: the `value` state (the text the debounce watches)
      takes `q` when `q` is present, non-empty and different from it.
      Returns the new state. */
  function SyncValue(ps: Params, value: string): (r: string)
    ensures Get(ps, QueryKey).None? || Get(ps, QueryKey) == Some("") ==> r == value
    ensures Get(ps, QueryKey).Some? && Get(ps, QueryKey).value != "" ==> r == Get(ps, QueryKey).value
  {
    match Get(ps, QueryKey)
    case Some(q) => if q != "" && q != value then q else value
    case None => value
  }

  /** Text typed, debounced and navigated to comes back unchanged through
      the sync effect, so the two effects do not fight. */
  lemma SyncAgreesWithQuery(ps: Params, value: string)
    requires QueryEffect(ps, value).Push?
    ensures SyncValue(ListOf(QueryEffect(ps, value).url), value) == value
  {
  }
}
