/**
 * PaginatedExtensions: one page of a (possibly ordered) query, and the paginated result that
 * combines ApplyOrdering, ApplyPaging and the total count.
 */
module PaginatedExtensions {
  import opened Wrappers
  import opened Dtos
  import opened Queryable
  import opened OrderingExtension
  import StableSort

  /** (page - 1) * pageSize as the code computes it, in unchecked 32-bit arithmetic. Wrapping
   *  the intermediate page - 1 as well gives the same value modulo 2^32, hence the same result. */
  function PageOffsetAsWritten(page: Int32, pageSize: Int32): Int32 {
    WrapInt32((page - 1) * pageSize)
  }

  /** The number of rows the pages before `page` hold: (page - 1) * pageSize without overflow.
   *  The paging below skips this many rows. */
  function PageOffset(page: Int32, pageSize: Int32): int {
    (page - 1) * pageSize
  }

  /** The two offsets agree whenever the product fits in an `int`. */
  lemma OffsetAsWrittenAgrees(page: Int32, pageSize: Int32)
    requires IsInt32((page - 1) * pageSize)
    ensures PageOffsetAsWritten(page, pageSize) == PageOffset(page, pageSize)
  {
  }

  /** ApplyPaging over a sequence (the IEnumerable overload): with both a page and a page size,
   *  skip the rows of the earlier pages and take at most pageSize rows; otherwise keep all rows. */
  function ApplyPaging<T>(source: seq<T>, page: Option<Int32>, pageSize: Option<Int32>): (r: seq<T>)
    ensures page.None? || pageSize.None? ==> r == source
    ensures page.Some? && pageSize.Some? ==>
      var lo := Clamp(PageOffset(page.value, pageSize.value), |source|);
      r == source[lo .. lo + Clamp(pageSize.value, |source| - lo)]
  {
    if page.Some? && pageSize.Some? then
      SkipTakeWindow(source, PageOffset(page.value, pageSize.value), pageSize.value);
      Take(Skip(source, PageOffset(page.value, pageSize.value)), pageSize.value)
    else source
  }

  /** ApplyPaging over an ordered query: the paged query yields the page of the rows the
   *  ordered query yields. */
  function ApplyPagingQuery<T>(ty: EntityType<T>, source: Query<T>, page: Option<Int32>, pageSize: Option<Int32>): (r: Query<T>)
    ensures ToList(ty, r) == ApplyPaging(ToList(ty, source), page, pageSize)
  {
    if page.Some? && pageSize.Some? then SkipTake(ty, source, PageOffset(page.value, pageSize.value), pageSize.value)
    else source
  }

  function Min(a: int, b: int): int {
    if a <= b then a else b
  }

  lemma WindowBounds(offset: int, size: int, len: nat)
    requires offset >= 0 && size >= 0
    ensures Clamp(offset, len) == Min(offset, len)
    ensures Clamp(offset, len) + Clamp(size, len - Clamp(offset, len)) == Min(offset + size, len)
  {
  }

  lemma MulFacts(a: int, b: int)
    requires a >= 0 && b >= 0
    ensures a * b >= 0 && (a + 1) * b == a * b + b
  {
  }

  /** A page numbered from 1 holds the rows from (page - 1) * pageSize up to page * pageSize,
   *  cut off at the end of the rows. */
  lemma PageWindow<T>(source: seq<T>, page: Int32, pageSize: Int32)
    requires page >= 1 && pageSize >= 0
    ensures Min((page - 1) * pageSize, |source|) <= Min(page * pageSize, |source|)
    ensures ApplyPaging(source, Some(page), Some(pageSize)) ==
      source[Min((page - 1) * pageSize, |source|) .. Min(page * pageSize, |source|)]
  {
    var offset := (page - 1) * pageSize;
    MulFacts(page - 1, pageSize);
    assert page * pageSize == offset + pageSize;
    WindowBounds(offset, pageSize, |source|);
  }

  /** Pages 1 to n, one after the other. */
  function Pages<T>(source: seq<T>, n: Int32, pageSize: Int32): seq<T>
    requires n >= 0
    decreases n
  {
    if n == 0 then [] else Pages(source, n - 1, pageSize) + ApplyPaging(source, Some(n), Some(pageSize))
  }

  /** The pages tile the rows: pages 1 to n together are the first n * pageSize rows, in order,
   *  with no row twice and none left out. */
  lemma {:induction false} PagesTile<T>(source: seq<T>, n: Int32, pageSize: Int32)
    requires n >= 0 && pageSize >= 0
    ensures Pages(source, n, pageSize) == source[..Min(n * pageSize, |source|)]
    decreases n
  {
    if n > 0 {
      PagesTile(source, n - 1, pageSize);
      PageWindow(source, n, pageSize);
      var a := Min((n - 1) * pageSize, |source|);
      var b := Min(n * pageSize, |source|);
      assert 0 <= a <= b by { MulFacts(n - 1, pageSize); }
      Concatenated(source, a, b);
    }
  }

  lemma Concatenated<T>(s: seq<T>, a: int, b: int)
    requires 0 <= a <= b <= |s|
    ensures s[..a] + s[a..b] == s[..b]
  {
  }

  /** Page 0, which the paginated-items validator accepts, yields the same rows as page 1. */
  lemma PageZeroIsFirstPage<T>(source: seq<T>, pageSize: Int32)
    requires pageSize >= 0
    ensures ApplyPaging(source, Some(0), Some(pageSize)) == ApplyPaging(source, Some(1), Some(pageSize))
  {
  }

  /** A page that starts at or after the last row is empty, as is every page of a non-positive
   *  size. */
  lemma EmptyPages<T>(source: seq<T>, page: Int32, pageSize: Int32)
    ensures PageOffset(page, pageSize) >= |source| ==> ApplyPaging(source, Some(page), Some(pageSize)) == []
    ensures pageSize <= 0 ==> ApplyPaging(source, Some(page), Some(pageSize)) == []
  {
  }

  /** With the arithmetic as written, page 3 of size 2^30 wraps to a negative offset, so Skip
   *  skips nothing and the first rows come back, while the rows before that page number already
   *  exceed any list of at most 2^30 rows, whose third page is therefore empty. */
  lemma WrappedOffsetReturnsFirstRows<T>(source: seq<T>)
    requires 0 < |source| <= 0x4000_0000
    ensures PageOffsetAsWritten(3, 0x4000_0000) == -0x8000_0000
    ensures Take(Skip(source, PageOffsetAsWritten(3, 0x4000_0000)), 0x4000_0000) == source
    ensures ApplyPaging(source, Some(3), Some(0x4000_0000)) == []
  {
    assert Skip(source, -0x8000_0000) == source;
  }

  /** PaginateAsync: the ordered page, the paging inputs echoed back and the number of rows of the
   *  unordered, unpaged source; ApplyOrdering's exception when it throws one. */
  function Paginate<T>(ty: EntityType<T>, source: Query<T>, page: Option<Int32>, pageSize: Option<Int32>,
                       sorting: Option<seq<SortingDto>>): (r: Result<PaginatedResult<T>, Error>)
    ensures sorting.None? ==> r == Err(ArgumentNull)
    ensures r.Err? <==> OrderingPlan(ty.properties, sorting).Err?
    ensures r.Err? ==> r.error == OrderingPlan(ty.properties, sorting).error
    ensures r.Ok? ==> r.value.page == page && r.value.pageSize == pageSize && r.value.count == |source.rows|
  {
    var ordered :- Ordered(ty, source, sorting);
    Ok(PaginatedResult(page, pageSize, Count(source), ToList(ty, ApplyPagingQuery(ty, ordered, page, pageSize))))
  }

  /** Once ordering succeeds, the result is the page of the ordered rows with the count of the
   *  source rows. */
  lemma PaginateOrdered<T>(ty: EntityType<T>, source: Query<T>, page: Option<Int32>, pageSize: Option<Int32>,
                           sorting: Option<seq<SortingDto>>)
    requires Ordered(ty, source, sorting).Ok?
    ensures Paginate(ty, source, page, pageSize, sorting) ==
      Ok(PaginatedResult(page, pageSize, |source.rows|, ApplyPaging(ToList(ty, Ordered(ty, source, sorting).value), page, pageSize)))
  {
  }

  /** The data is one page of a permutation of the source rows that is sorted by the ordering
   *  chain ApplyOrdering builds; it never holds more rows than the page size. */
  lemma PaginateData<T(!new)>(ty: EntityType<T>, source: Query<T>, page: Option<Int32>, pageSize: Option<Int32>,
                              sorting: Option<seq<SortingDto>>)
    requires Paginate(ty, source, page, pageSize, sorting).Ok?
    ensures Ordered(ty, source, sorting).Ok?
    ensures var q := Ordered(ty, source, sorting).value;
            var rows := ToList(ty, q);
            multiset(rows) == multiset(source.rows) &&
            (q.ordering.Some? ==> StableSort.SortedBy(rows, ChainLe(ty, q.ordering.value))) &&
            Paginate(ty, source, page, pageSize, sorting).value.data == ApplyPaging(rows, page, pageSize)
    ensures page.Some? && pageSize.Some? ==> |Paginate(ty, source, page, pageSize, sorting).value.data| <= Max0(pageSize.value)
  {
    OrderedQuerySpec(ty, source, sorting);
  }

  function Max0(n: int): nat {
    if n <= 0 then 0 else n
  }

  /** The projection overload: the rows are projected first, then ordered by the projected
   *  type's properties and paged. */
  function PaginateSelect<T, U>(ty: EntityType<T>, resultType: EntityType<U>, source: Query<T>, page: Option<Int32>,
                                pageSize: Option<Int32>, select: T -> U, sorting: Option<seq<SortingDto>>): Result<PaginatedResult<U>, Error>
  {
    Paginate(resultType, Select(ty, source, select), page, pageSize, sorting)
  }

  /** The count is that of the source rows; the data is one page of a permutation of the
   *  projected rows, and ordering fails or succeeds by the projected type alone. */
  lemma PaginateSelectSpec<T(!new), U(!new)>(ty: EntityType<T>, resultType: EntityType<U>, source: Query<T>, page: Option<Int32>,
                                             pageSize: Option<Int32>, select: T -> U, sorting: Option<seq<SortingDto>>)
    ensures PaginateSelect(ty, resultType, source, page, pageSize, select, sorting).Ok? <==>
      OrderingPlan(resultType.properties, sorting).Ok?
    ensures PaginateSelect(ty, resultType, source, page, pageSize, select, sorting).Ok? ==>
      var projected := Select(ty, source, select);
      var q := Ordered(resultType, projected, sorting).value;
      PaginateSelect(ty, resultType, source, page, pageSize, select, sorting).value.count == |source.rows| &&
      multiset(ToList(resultType, q)) == multiset(projected.rows) &&
      PaginateSelect(ty, resultType, source, page, pageSize, select, sorting).value.data ==
        ApplyPaging(ToList(resultType, q), page, pageSize)
  {
    ToListSpec(ty, source);
    if PaginateSelect(ty, resultType, source, page, pageSize, select, sorting).Ok? {
      PaginateData(resultType, Select(ty, source, select), page, pageSize, sorting);
    }
  }
}
