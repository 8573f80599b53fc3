/** The request and result shapes of the library (Dtos/, Enums/): plain values, except the
 *  autocomplete result, whose two properties the handler sets after construction. */
module Dtos {
  import opened Wrappers

  /** A C# `int`. */
  type Int32 = x: int | -0x8000_0000 <= x <= 0x7fff_ffff

  predicate IsInt32(x: int) {
    -0x8000_0000 <= x <= 0x7fff_ffff
  }

  /** The value an unchecked C# `int` computation yields for the exact result x: x reduced
   *  modulo 2^32 into the `int` range. */
  function WrapInt32(x: int): (r: Int32)
    ensures IsInt32(x) ==> r == x
    ensures (x - r) % 0x1_0000_0000 == 0
  {
    (x + 0x8000_0000) % 0x1_0000_0000 - 0x8000_0000
  }

  /** The paging inputs of a request (IHasPaging; also the Page and PageSize of
   *  AutoCompleteQuery). */
  datatype Paging = Paging(page: Option<Int32>, pageSize: Option<Int32>)

  /** SortDirectionEnum. */
  datatype SortDirection = Asc | Desc

  /** SortingDto: a column name and an optional direction. */
  datatype SortingDto = SortingDto(sortColumnName: string, sortDirection: Option<SortDirection>)

  /** PaginatedResult<TDto>: the paging inputs echoed back, the total count and one page of data. */
  datatype PaginatedResult<T> = PaginatedResult(page: Option<Int32>, pageSize: Option<Int32>, count: int, data: seq<T>)

  /** AutoCompleteResult<TDto>, whose Data and HasMore have public setters. */
  class AutoCompleteResult<T> {
    var data: seq<T>
    var hasMore: bool

    constructor (data: seq<T>, hasMore: bool)
      ensures this.data == data && this.hasMore == hasMore
    {
      this.data := data;
      this.hasMore := hasMore;
    }
  }
}
