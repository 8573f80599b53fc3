/**
 * AutoCompleteQueryHandler.HandleAsync: the query the subclass supplies, optionally put in the
 * default order, then paged with one row more than the page size; a row beyond the page size is
 * reported as HasMore and dropped.
 */
module AutoCompleteQueryHandler {
  import opened Wrappers
  import opened Dtos
  import opened Queryable
  import opened OrderingExtension
  import opened PaginatedExtensions
  import StableSort
  import AutoCompleteQueryValidator

  /** The two values HandleAsync leaves in its result. */
  datatype Outcome<T> = Outcome(data: seq<T>, hasMore: bool)

  /** The parameterless ApplyOrdering: no directives, so the Sort and RequiredSort defaults. */
  function ByName<T>(ty: EntityType<T>, dbQuery: Query<T>, orderByName: bool): Result<Query<T>, Error> {
    if orderByName then Ordered(ty, dbQuery, Some([])) else Ok(dbQuery)
  }

  /** The query before it is listed: with a page and a page size, skip the earlier pages and
   *  take pageSize + 1 rows. */
  function Fetch<T>(ty: EntityType<T>, q: Query<T>, paging: Paging): Query<T> {
    if paging.page.Some? && paging.pageSize.Some? then
      SkipTake(ty, q, PageOffset(paging.page.value, paging.pageSize.value), paging.pageSize.value + 1)
    else q
  }

  /** The lifted comparison Data.Count > PageSize, false when PageSize is null. */
  predicate Overflows(count: int, pageSize: Option<Int32>) {
    pageSize.Some? && count > pageSize.value
  }

  /** What HandleAsync returns, or the exception ApplyOrdering throws. */
  function AutoComplete<T>(ty: EntityType<T>, dbQuery: Query<T>, orderByName: bool, paging: Paging): Result<Outcome<T>, Error> {
    var q :- ByName(ty, dbQuery, orderByName);
    var fetched := ToList(ty, Fetch(ty, q, paging));
    if Overflows(|fetched|, paging.pageSize) then Ok(Outcome(Take(fetched, paging.pageSize.value), true))
    else Ok(Outcome(fetched, false))
  }

  /** HandleAsync. GetQuery(query.Filter) is the parameter dbQuery and OrderByName the parameter
   *  orderByName. The result object is built and then updated in place, as the code does. */
  method HandleAsync<T>(ty: EntityType<T>, dbQuery: Query<T>, orderByName: bool, paging: Paging)
    returns (r: Result<AutoCompleteResult<T>, Error>)
    ensures r.Err? <==> AutoComplete(ty, dbQuery, orderByName, paging).Err?
    ensures r.Err? ==> r.error == AutoComplete(ty, dbQuery, orderByName, paging).error
    ensures r.Ok? ==> fresh(r.value)
    ensures r.Ok? ==> Outcome(r.value.data, r.value.hasMore) == AutoComplete(ty, dbQuery, orderByName, paging).value
  {
    var q := dbQuery;
    if orderByName {
      var ordered := ApplyOrdering(ty, q, Some([]));
      if ordered.Err? {
        return Err(ordered.error);
      }
      q := ordered.value;
    }
    if paging.page.Some? && paging.pageSize.Some? {
      q := SkipTake(ty, q, PageOffset(paging.page.value, paging.pageSize.value), paging.pageSize.value + 1);
    }
    var result := new AutoCompleteResult(ToList(ty, q), false);
    if Overflows(|result.data|, paging.pageSize) {
      result.hasMore := true;
      result.data := Take(result.data, paging.pageSize.value);
    }
    return Ok(result);
  }

  /** Ordering only fails when it is requested and the default plan fails; the rows are those of
   *  the query, left as they are when no ordering is requested or the default plan is empty, and
   *  otherwise sorted by the query's own chain (when GetQuery ordered it) followed by the default
   *  chain. */
  lemma ByNameSpec<T(!new)>(ty: EntityType<T>, dbQuery: Query<T>, orderByName: bool)
    ensures ByName(ty, dbQuery, orderByName).Err? <==> orderByName && OrderingPlan(ty.properties, Some([])).Err?
    ensures !orderByName ==> ByName(ty, dbQuery, orderByName) == Ok(dbQuery)
    ensures ByName(ty, dbQuery, orderByName).Ok? ==>
      var rows := ToList(ty, ByName(ty, dbQuery, orderByName).value);
      var plan := OrderingPlan(ty.properties, Some([]));
      multiset(rows) == multiset(dbQuery.rows) &&
      (orderByName && plan.value == [] ==> ByName(ty, dbQuery, orderByName) == Ok(dbQuery)) &&
      (orderByName && plan.value != [] ==>
        StableSort.SortedBy(rows, ChainLe(ty, if dbQuery.ordering.Some? then dbQuery.ordering.value + plan.value else plan.value)))
  {
    ToListSpec(ty, dbQuery);
    if orderByName && Ordered(ty, dbQuery, Some([])).Ok? {
      OrderedQuerySpec(ty, dbQuery, Some([]));
    }
  }

  /** With a page and a page size that is not negative, the data is exactly that page of the
   *  (optionally ordered) rows, as ApplyPaging cuts it, and HasMore says whether any row
   *  follows the page. */
  lemma PagedOutcome<T>(ty: EntityType<T>, dbQuery: Query<T>, orderByName: bool, paging: Paging)
    requires ByName(ty, dbQuery, orderByName).Ok?
    requires paging.page.Some? && paging.pageSize.Some? && paging.pageSize.value >= 0
    ensures var rows := ToList(ty, ByName(ty, dbQuery, orderByName).value);
            var lo := Clamp(PageOffset(paging.page.value, paging.pageSize.value), |rows|);
            AutoComplete(ty, dbQuery, orderByName, paging) ==
              Ok(Outcome(ApplyPaging(rows, paging.page, paging.pageSize), lo + paging.pageSize.value < |rows|))
  {
    var rows := ToList(ty, ByName(ty, dbQuery, orderByName).value);
    var ps: int := paging.pageSize.value;
    var off := PageOffset(paging.page.value, ps);
    var lo := Clamp(off, |rows|);
    SkipTakeWindow(rows, off, ps + 1);
    SkipTakeWindow(rows, off, ps);
    var fetched := Take(Skip(rows, off), ps + 1);
    assert fetched == rows[lo .. lo + Clamp(ps + 1, |rows| - lo)];
    if lo + ps < |rows| {
      assert |fetched| == ps + 1;
      assert Take(fetched, ps) == rows[lo .. lo + ps];
    } else {
      assert |fetched| == |rows| - lo <= ps;
    }
  }

  /** A negative page size with a page fetches nothing, yet reports more rows. */
  lemma NegativePageSize<T>(ty: EntityType<T>, dbQuery: Query<T>, orderByName: bool, paging: Paging)
    requires ByName(ty, dbQuery, orderByName).Ok?
    requires paging.page.Some? && paging.pageSize.Some? && paging.pageSize.value < 0
    ensures AutoComplete(ty, dbQuery, orderByName, paging) == Ok(Outcome([], true))
  {
  }

  /** A page size without a page is not paged but still truncated: the first pageSize rows,
   *  with HasMore when there were more. */
  lemma PageSizeWithoutPage<T>(ty: EntityType<T>, dbQuery: Query<T>, orderByName: bool, pageSize: Int32)
    requires ByName(ty, dbQuery, orderByName).Ok?
    ensures var rows := ToList(ty, ByName(ty, dbQuery, orderByName).value);
            AutoComplete(ty, dbQuery, orderByName, Paging(None, Some(pageSize))) ==
              Ok(Outcome(Take(rows, pageSize), |rows| > pageSize))
  {
  }

  /** Without a page size every row comes back and HasMore is false, whatever the page. */
  lemma NoPageSize<T>(ty: EntityType<T>, dbQuery: Query<T>, orderByName: bool, page: Option<Int32>)
    requires ByName(ty, dbQuery, orderByName).Ok?
    ensures AutoComplete(ty, dbQuery, orderByName, Paging(page, None)) ==
      Ok(Outcome(ToList(ty, ByName(ty, dbQuery, orderByName).value), false))
  {
  }

  /** A request the validator accepts with a page size names a page of at least 1 and a size
   *  between 1 and 500; its data is that page of the rows, and HasMore says whether any row
   *  lies beyond page * pageSize. */
  lemma ValidatedOutcome<T>(ty: EntityType<T>, dbQuery: Query<T>, orderByName: bool, paging: Paging)
    requires ByName(ty, dbQuery, orderByName).Ok?
    requires AutoCompleteQueryValidator.Accepts(paging) && paging.pageSize.Some?
    ensures paging.page.Some? && paging.page.value >= 1 && 1 <= paging.pageSize.value <= 500
    ensures var rows := ToList(ty, ByName(ty, dbQuery, orderByName).value);
            AutoComplete(ty, dbQuery, orderByName, paging) ==
              Ok(Outcome(ApplyPaging(rows, paging.page, paging.pageSize), paging.page.value * paging.pageSize.value < |rows|))
  {
    AutoCompleteQueryValidator.AcceptsIff(paging);
    var rows := ToList(ty, ByName(ty, dbQuery, orderByName).value);
    var page, ps := paging.page.value, paging.pageSize.value;
    PagedOutcome(ty, dbQuery, orderByName, paging);
    MulFacts(page - 1, ps);
    assert Clamp(PageOffset(page, ps), |rows|) + ps < |rows| <==> page * ps < |rows|;
  }

  /** With the arithmetic as written, a request the validator accepts (page 4294969, page size
   *  500) has its offset wrap to a negative int, so Skip skips nothing and the first 501 rows are
   *  fetched, while the page it names lies beyond any list of at most 2^31 rows. */
  lemma ValidatedRequestWraps<T>(rows: seq<T>)
    requires 501 <= |rows| <= 0x8000_0000
    ensures AutoCompleteQueryValidator.Accepts(Paging(Some(4294969), Some(500)))
    ensures PageOffsetAsWritten(4294969, 500) == -2147483296
    ensures Take(Skip(rows, PageOffsetAsWritten(4294969, 500)), 501) == rows[..501]
    ensures Take(Skip(rows, PageOffset(4294969, 500)), 501) == []
  {
    AutoCompleteQueryValidator.AcceptsIff(Paging(Some(4294969), Some(500)));
  }

  /** With pageSize + 1 computed as written, a page size of int.MaxValue wraps the take count to
   *  int.MinValue and nothing is fetched; the corrected count takes every row. */
  lemma MaxPageSizeFetchesNothing<T>(rows: seq<T>)
    requires |rows| <= 0x7fff_ffff
    ensures WrapInt32(0x7fff_ffff + 1) == -0x8000_0000
    ensures Take(rows, WrapInt32(0x7fff_ffff + 1)) == []
    ensures Take(rows, 0x7fff_ffff + 1) == rows
  {
  }
}
