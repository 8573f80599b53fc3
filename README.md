# Cross.DataFilter in Dafny

A model of the sorting and paging core of Cross.DataFilter, a small .NET library. It turns
caller-supplied sort directives (`SortingDto`) and property attributes (`[Sort]`,
`[RequiredSort]`, `[NoSort]`, `[SortBy]`) into an `OrderBy`/`ThenBy` chain on an `IQueryable`.
It pages the rows with `Skip`/`Take` and wraps them into a `PaginatedResult`. It also serves
autocomplete requests by fetching one row more than the page size.

The model has these modules:

- `OrderingExtension` is `ApplyOrdering` with its helpers.
  - `GetProperty`, `SortBy`, `AddOrder` and `ApplyOrdering` are imperative methods. Each is proved equal to a specification function: `ResolvedProperty`, `PathKey`, `PropertySteps` and `Ordered`.
  - The LINQ filters and `AddSingleOrder` are pure functions.
- `PaginatedExtensions` holds `ApplyPaging` (both overloads) and `PaginateAsync` (both overloads).
- `AutoCompleteQueryHandler` is `HandleAsync`. It builds an `AutoCompleteResult` object and then updates its `Data` and `HasMore` in place.
- `Validation` is the part of FluentValidation the validators rely on. A `When` on a rule guards every validator declared before it. The comparison validators pass on null.
- `PaginatedItemsQueryValidator` and `AutoCompleteQueryValidator` are the two validators, with their accepted inputs stated in closed form.
- `Queryable` models an `IQueryable` as its rows plus the ordering chain, when its expression is an `IOrderedQueryable`.
  - Listing the query sorts the rows stably by that chain, compared lexicographically.
  - `Skip` and `Take` follow .NET: a count of zero or less skips nothing or takes nothing.
- `StableSort` and `Text` are the helpers behind that model. `StableSort` is a stable insertion sort with permutation, sortedness and stability lemmas. `Text` covers `Split` with `RemoveEmptyEntries`, ordinal comparison and ASCII case folding.
- `Attributes` and `Dtos` are the data model.
  - A record type becomes a table of `Property` values in declaration order. Each carries its attributes and the properties of its own type.
- `PaginationScenarios` holds the scenarios of the unit tests. The test entity's declaration is not part of this model; it is assumed to have an int `Id` and a string `Name` without attributes.
- `RequiredSortScenarios` is a type built with the attribute constructors, `Id` with `[RequiredSort(0)]` and `Name` with `[Sort]`, on which the default and required sorts are worked out. A second type declares `Key`, with JSON name `id`, before the same `Id`.

Behaviour of the code that the model keeps as written:

- At every level, `GetProperty` compares the properties with the whole requested name, not with that level's segment. So a dotted name such as `"A.B"` never resolves, unless at every level some property's name, JSON name or bind name itself contains the dots (`DottedNameFails` states the dot-free case).
- `SortBy` skips path segments that do not resolve. The last segment decides whether sorting is possible.
- Required sorts apply only when a directive names the property's lower-cased name exactly. When that name also resolves to the property, the property is sorted twice, once in the directive's direction and once more at the end in the attribute's direction. When the name resolves to another property (one declared earlier whose JSON or bind name answers to it), the required property is sorted once, at the end.
- Page 0 is the same as page 1.
- A page size without a page leaves `PaginateAsync` unpaged. In the autocomplete handler it still truncates to the page size.
- A negative page size with a page makes the handler fetch nothing and still report `HasMore`.

## Model

| member | source | states |
|---|---|---|
| `OrderingExtension.GetProperty` | Cross.DataFilter/Extensions/OrderingExtension.cs:59-79 | the loop over the dot-separated levels returns exactly the specified lookup: the property found at the last level, or NotSupported |
| `OrderingExtension.FirstAnsweringSpec` | Cross.DataFilter/Extensions/OrderingExtension.cs:68-72 | the first property, in declaration order, whose name, JSON name or bind name equals the requested name ignoring case; none exactly when no property answers |
| `OrderingExtension.LookupSimpleName` | Cross.DataFilter/Extensions/OrderingExtension.cs:61-78 | a name without dots resolves iff some property answers to it, and then to the first one that does; otherwise NotSupported |
| `OrderingExtension.LookupEmptyNameFails` | Cross.DataFilter/Extensions/OrderingExtension.cs:61-78 | an empty name, or one of dots only, has no levels and fails with NotSupported |
| `OrderingExtension.LookupNeedsTopLevelMatch` | Cross.DataFilter/Extensions/OrderingExtension.cs:66-76 | if no top-level property answers to the whole name, every number of levels fails |
| `OrderingExtension.DottedNameFails` | Cross.DataFilter/Extensions/OrderingExtension.cs:66-73 | a dotted name never resolves when no property name or alternate name contains a dot |
| `OrderingExtension.ResolvedPropertyFailure` | Cross.DataFilter/Extensions/OrderingExtension.cs:73-78 | the only error of the lookup is NotSupported |
| `OrderingExtension.FindDeclared` | Cross.DataFilter/Extensions/OrderingExtension.cs:134 | the first property declared with exactly the given name, compared case-sensitively, or none iff no property has it |
| `OrderingExtension.SortBy` | Cross.DataFilter/Extensions/OrderingExtension.cs:124-162 | the reflection walk returns exactly the specified key step, or SortingNotPossible |
| `OrderingExtension.WalkEndsOnLastSegment` | Cross.DataFilter/Extensions/OrderingExtension.cs:132-139 | the walk ends on the last segment looked up among the members reached by the earlier ones; when the last segment is missing, the walk yields nothing |
| `OrderingExtension.PathKeyNeedsLastSegment` | Cross.DataFilter/Extensions/OrderingExtension.cs:127-161 | a path sorts iff its last segment is declared where the walk arrives; the key is lower-cased iff that property is a string; a path with no segments fails |
| `OrderingExtension.PathKeySimpleName` | Cross.DataFilter/Extensions/OrderingExtension.cs:141-161 | a plain name sorts on the property declared with it (lower-cased when it is a string), else SortingNotPossible |
| `OrderingExtension.AddStepsAppend` | Cross.DataFilter/Extensions/OrderingExtension.cs:113-116 | adding steps in two batches is the same as adding them in one |
| `OrderingExtension.AddStepsChain` | Cross.DataFilter/Extensions/OrderingExtension.cs:113-122 | the rows are unchanged; an unordered query gets the steps as a new chain (OrderBy then ThenBy), an ordered one has them appended to its chain |
| `OrderingExtension.AddOrder` | Cross.DataFilter/Extensions/OrderingExtension.cs:81-111 | the query with one step added per name of the property's expansion: its [SortBy] names, else its [Sort]-attributed members, else its own name; the first failing name's error |
| `OrderingExtension.CollectAppend` | Cross.DataFilter/Extensions/OrderingExtension.cs:23-32 | collecting over a concatenation gives the steps of the first part, then those of the second, or the first failure |
| `OrderingExtension.CollectFirstFailure` | Cross.DataFilter/Extensions/OrderingExtension.cs:23-32 | a failing item makes the whole loop fail, with that item's error when all earlier items succeed |
| `OrderingExtension.CollectPaths` | Cross.DataFilter/Extensions/OrderingExtension.cs:86-89 | the names' steps succeed iff each name resolves; then there is one step per name, in order |
| `OrderingExtension.PropertyStepsShape` | Cross.DataFilter/Extensions/OrderingExtension.cs:81-111 | a property's steps succeed iff every name of its expansion resolves; they follow the expansion one to one, all in the given direction |
| `OrderingExtension.Indices` | Cross.DataFilter/Extensions/OrderingExtension.cs:97-99 | the positions of exactly the properties the filter keeps, increasing, i.e. in declaration order |
| `OrderingExtension.AddDirectives` | Cross.DataFilter/Extensions/OrderingExtension.cs:23-32 | the foreach over the directives adds each one's steps in turn, or stops with the first exception |
| `OrderingExtension.AddAttributed` | Cross.DataFilter/Extensions/OrderingExtension.cs:40-43 | the foreach over attributed properties adds each one's steps in its attribute's direction, or stops with the first exception |
| `OrderingExtension.ApplyOrdering` | Cross.DataFilter/Extensions/OrderingExtension.cs:14-57 | the method yields exactly the specified ordered query, or ArgumentNull for null sorting, or the first exception |
| `OrderingExtension.FirstFailingDirective` | Cross.DataFilter/Extensions/OrderingExtension.cs:23-32 | the first failing directive's error is the error of the whole ordering |
| `OrderingExtension.NoSortDirectiveFails` | Cross.DataFilter/Extensions/OrderingExtension.cs:27-30 | a directive naming a [NoSort] property makes ordering fail, with SortNotAllowed when no earlier directive fails |
| `OrderingExtension.UnknownColumnFails` | Cross.DataFilter/Extensions/OrderingExtension.cs:25-26 | a directive naming no property makes ordering fail, with NotSupported when no earlier directive fails |
| `OrderingExtension.DirectiveStepShape` | Cross.DataFilter/Extensions/OrderingExtension.cs:25-31 | a successful directive names a sortable property and sorts on its expansion in the directive's direction, ascending when none is given |
| `OrderingExtension.NothingRequiredWithoutDirectives` | Cross.DataFilter/Extensions/OrderingExtension.cs:46-49 | with no directives no required sort applies |
| `OrderingExtension.NoRequiredSortProperties` | Cross.DataFilter/Extensions/OrderingExtension.cs:46-49 | a type without [RequiredSort] properties never gets a required sort |
| `OrderingExtension.PlanWithoutRequiredSorts` | Cross.DataFilter/Extensions/OrderingExtension.cs:21-54 | when no required sort applies, the plan for some directives is their steps alone |
| `OrderingExtension.NoDirectivesUseDefaults` | Cross.DataFilter/Extensions/OrderingExtension.cs:34-44 | with an empty directive list the plan is the default [Sort] chain alone |
| `OrderingExtension.ByOrderSort` | Cross.DataFilter/Extensions/OrderingExtension.cs:39 | OrderBy on the attribute order keeps the same elements, ascending by order, with ties in their original order |
| `OrderingExtension.WithSortMembers` | Cross.DataFilter/Extensions/OrderingExtension.cs:36-38 | the [Sort] selection holds exactly the [Sort]-attributed properties with their attribute |
| `OrderingExtension.DefaultSortsSpec` | Cross.DataFilter/Extensions/OrderingExtension.cs:36-39 | the default chain is every [Sort] property once, ascending by Order, ties in declaration order |
| `OrderingExtension.WithRequiredSortMembers` | Cross.DataFilter/Extensions/OrderingExtension.cs:46-49 | the required selection holds exactly the [RequiredSort] properties whose lower-cased name is one of the directive column names |
| `OrderingExtension.RequiredSortsSpec` | Cross.DataFilter/Extensions/OrderingExtension.cs:46-51 | the required sorts are those properties once each, ascending by Order, ties in declaration order |
| `OrderingExtension.RequiredPropertySortedTwice` | Cross.DataFilter/Extensions/OrderingExtension.cs:21-54 | a [RequiredSort] property that a directive names by its exact lower-cased name, and that the name resolves to, is sorted twice: the plan is the directives' steps followed by the required steps, the first holding that property's steps in the directive's direction and the second its steps in the attribute's direction |
| `OrderingExtension.OrderedQuerySpec` | Cross.DataFilter/Extensions/OrderingExtension.cs:14-57 | ordering keeps the rows; the chain is the source's own chain followed by the plan; the listed result is a permutation of the rows, sorted by that chain |
| `Queryable.ToListSpec` | Cross.DataFilter/Extensions/PaginatedExtensions.cs:41-44 | listing a query only reorders its rows, sorts them by its chain and keeps ties in their original order |
| `Queryable.ChainTotalPreorder` | Cross.DataFilter/Extensions/OrderingExtension.cs:113-122 | every OrderBy/ThenBy chain compares rows as a total preorder |
| `Queryable.SkipTakeWindow` | Cross.DataFilter/Extensions/PaginatedExtensions.cs:12 | Skip then Take cuts one contiguous run out of the rows, with counts below zero treated as zero |
| `StableSort.SortPermutation` | Cross.DataFilter/Extensions/OrderingExtension.cs:39 | sorting is a permutation |
| `StableSort.SortSorted` | Cross.DataFilter/Extensions/OrderingExtension.cs:39 | the sorted sequence is ordered by the comparison |
| `StableSort.SortStable` | Cross.DataFilter/Extensions/OrderingExtension.cs:39 | elements that compare equal keep their relative order |
| `Text.SplitPieces` | Cross.DataFilter/Extensions/OrderingExtension.cs:61 | Split with RemoveEmptyEntries gives non-empty, dot-free pieces, and none iff the name is all dots |
| `Text.SplitLosesOnlyDots` | Cross.DataFilter/Extensions/OrderingExtension.cs:127 | the pieces joined back give the name without its dots |
| `Attributes.ConstructorDefaults` | Cross.DataFilter/Attributes/RequiredSortAttribute.cs:10-19 | [Sort] defaults to ascending; [RequiredSort] without an order is ascending with order 0, with an order it defaults to descending |
| `PaginatedExtensions.ApplyPaging` | Cross.DataFilter/Extensions/PaginatedExtensions.cs:18-29 | without a page or a page size, every row; with both, the run from the offset clamped to the rows, at most pageSize long |
| `PaginatedExtensions.ApplyPagingQuery` | Cross.DataFilter/Extensions/PaginatedExtensions.cs:5-16 | paging a query yields the page of the rows the query lists |
| `PaginatedExtensions.OffsetAsWrittenAgrees` | Cross.DataFilter/Extensions/PaginatedExtensions.cs:12 | the 32-bit offset equals the exact one whenever the product fits in an int |
| `PaginatedExtensions.PageWindow` | Cross.DataFilter/Extensions/PaginatedExtensions.cs:10-13 | page n, counted from 1, holds the rows from (n-1)*size up to n*size, cut at the end |
| `PaginatedExtensions.PagesTile` | Cross.DataFilter/Extensions/PaginatedExtensions.cs:10-13 | pages 1 to n laid end to end are exactly the first n*size rows: no row twice, none skipped |
| `PaginatedExtensions.PageZeroIsFirstPage` | Cross.DataFilter/Extensions/PaginatedExtensions.cs:10-13 | page 0 yields the same rows as page 1 |
| `PaginatedExtensions.EmptyPages` | Cross.DataFilter/Extensions/PaginatedExtensions.cs:10-13 | a page starting at or after the last row, or of size zero or less, is empty |
| `PaginatedExtensions.WrappedOffsetReturnsFirstRows` | Cross.DataFilter/Extensions/PaginatedExtensions.cs:12 | with 32-bit arithmetic, page 3 of size 2^30 wraps to offset -2^31 and returns the first rows, while that page is empty |
| `PaginatedExtensions.Paginate` | Cross.DataFilter/Extensions/PaginatedExtensions.cs:31-49 | fails exactly as ordering fails, with ArgumentNull for null sorting; otherwise echoes page and page size and counts the unpaged source |
| `PaginatedExtensions.PaginateData` | Cross.DataFilter/Extensions/PaginatedExtensions.cs:41-48 | the data is a page of a sorted permutation of the source rows, never longer than the page size |
| `PaginatedExtensions.PaginateSelectSpec` | Cross.DataFilter/Extensions/PaginatedExtensions.cs:51-65 | the projection overload orders by the projected type, pages the projected rows and counts the source |
| `Validation.WhenGuards` | Cross.DataFilter/Handlers/PaginatedItemsQueryValidator.cs:7-9 | a rule under a When holds where the condition fails and is unchanged where it holds |
| `PaginatedItemsQueryValidator.PageRuleIff` | Cross.DataFilter/Handlers/PaginatedItemsQueryValidator.cs:7-9 | the Page rule only requires a given page to be non-negative; its NotNull never fires |
| `PaginatedItemsQueryValidator.PageSizeRuleIff` | Cross.DataFilter/Handlers/PaginatedItemsQueryValidator.cs:11-13 | with a page, a page size is required and must be non-negative |
| `PaginatedItemsQueryValidator.AcceptsIff` | Cross.DataFilter/Handlers/PaginatedItemsQueryValidator.cs:5-14 | accepted iff a given page is non-negative and comes with a non-negative page size |
| `PaginatedItemsQueryValidator.PageSizeWithoutPageAccepted` | Cross.DataFilter/Handlers/PaginatedItemsQueryValidator.cs:7-9 | a page size without a page is accepted, and the rows then come back unpaged |
| `PaginatedItemsQueryValidator.AcceptsIntendedIff` | Cross.DataFilter/Handlers/PaginatedItemsQueryValidator.cs:8 | with Page's NotNull guarded only by its own When, page and page size must come together, both non-negative |
| `PaginatedItemsQueryValidator.IntendedBoundsPage` | Cross.DataFilter/Handlers/PaginatedItemsQueryValidator.cs:7-13 | under the intended rules, a request with a page size never gets more rows than that |
| `AutoCompleteQueryValidator.PageSizeRuleIff` | Cross.DataFilter/Handlers/AutoCompleteQueryValidator.cs:8-10 | the PageSize rule holds iff a page size, when given, is within 1..500 |
| `AutoCompleteQueryValidator.PageRuleIff` | Cross.DataFilter/Handlers/AutoCompleteQueryValidator.cs:8-11 | the Page rule holds iff, when a page size is given, a page of at least 1 is given too |
| `AutoCompleteQueryValidator.AcceptsIff` | Cross.DataFilter/Handlers/AutoCompleteQueryValidator.cs:8-12 | accepted iff, when a page size is given, it is within 1..500 and a page of at least 1 is given |
| `AutoCompleteQueryHandler.HandleAsync` | Cross.DataFilter/Handlers/AutoCompleteQueryHandler.cs:15-39 | the fresh result object ends with exactly the specified data and HasMore, or the ordering exception propagates |
| `AutoCompleteQueryHandler.ByNameSpec` | Cross.DataFilter/Handlers/AutoCompleteQueryHandler.cs:19-22 | only default ordering can fail; the rows are kept; when ordering is requested, an empty default plan leaves the query as it is, and otherwise the rows are sorted by the query's own chain (if GetQuery ordered it) followed by the default chain |
| `AutoCompleteQueryHandler.PagedOutcome` | Cross.DataFilter/Handlers/AutoCompleteQueryHandler.cs:24-37 | with a page and a non-negative page size, the data is exactly that page, and HasMore iff some row follows it |
| `AutoCompleteQueryHandler.NegativePageSize` | Cross.DataFilter/Handlers/AutoCompleteQueryHandler.cs:24-37 | a negative page size with a page fetches nothing and still reports HasMore |
| `AutoCompleteQueryHandler.PageSizeWithoutPage` | Cross.DataFilter/Handlers/AutoCompleteQueryHandler.cs:33-37 | a page size without a page gives the first pageSize rows, with HasMore iff there were more |
| `AutoCompleteQueryHandler.NoPageSize` | Cross.DataFilter/Handlers/AutoCompleteQueryHandler.cs:24-37 | without a page size every row comes back and HasMore is false |
| `AutoCompleteQueryHandler.ValidatedOutcome` | Cross.DataFilter/Handlers/AutoCompleteQueryHandler.cs:24-37 | an accepted request with a page size has a page of at least 1 and a size of 1..500; data is that page, HasMore iff rows lie beyond page*size |
| `AutoCompleteQueryHandler.ValidatedRequestWraps` | Cross.DataFilter/Handlers/AutoCompleteQueryHandler.cs:26 | the accepted request page 4294969, size 500 wraps the 32-bit offset negative and fetches the first 501 rows instead of none |
| `AutoCompleteQueryHandler.MaxPageSizeFetchesNothing` | Cross.DataFilter/Handlers/AutoCompleteQueryHandler.cs:26 | with 32-bit arithmetic, pageSize + 1 for int.MaxValue is int.MinValue and Take yields nothing; the exact count takes every row |
| `RequiredSortScenarios.IdResolves` | Cross.DataFilter/Extensions/OrderingExtension.cs:25-31 | on a type with Id [RequiredSort(0)] and Name [Sort], both "Id" and "id" resolve to Id, whose directive is one non-string step on Id |
| `RequiredSortScenarios.LowerCaseColumnSortsTwice` | Cross.DataFilter/Extensions/OrderingExtension.cs:46-54 | on that type, sorting on "id" in either direction gives the directive's step on Id and then a descending one from [RequiredSort(0)] |
| `RequiredSortScenarios.DeclaredCaseColumnSortsOnce` | Cross.DataFilter/Extensions/OrderingExtension.cs:46-49 | sorting on "Id", which is not the lower-cased name, adds no required step |
| `RequiredSortScenarios.KeyResolves` | Cross.DataFilter/Extensions/OrderingExtension.cs:25-31 | on the second type "id" resolves to Key, the first property answering to it, and its directive is one non-string step on Key |
| `RequiredSortScenarios.ShadowedColumnSortsRequiredOnce` | Cross.DataFilter/Extensions/OrderingExtension.cs:21-54 | on the second type, sorting on "id" gives the directive's step on Key and then one descending step on Id from [RequiredSort(0)]: Id is sorted once, at the end |
| `RequiredSortScenarios.DefaultSortOnName` | Cross.DataFilter/Extensions/OrderingExtension.cs:34-44 | without directives the plan is the [Sort] on Name, ascending, and no required step |
| `PaginationScenarios.NamePlan` | Cross.DataFilter.UnitTests/PaginationUnitTests.cs:84-87 | sorting the test entity on "Name" is one lower-cased step on Name, with no required sort |
| `PaginationScenarios.SortedSeed` | Cross.DataFilter.UnitTests/PaginationUnitTests.cs:20-27 | the five seeded rows sorted on Name come out in seed order ascending and reversed descending |
| `PaginationScenarios.FirstPageAscending` | Cross.DataFilter.UnitTests/PaginationUnitTests.cs:78-99 | page 1 of size 2 ascending holds two rows with a count of five |
| `PaginationScenarios.PageBeyondTheEnd` | Cross.DataFilter.UnitTests/PaginationUnitTests.cs:101-123 | page 10 of size 999 is empty with a count of five |
| `PaginationScenarios.FirstPageDescending` | Cross.DataFilter.UnitTests/PaginationUnitTests.cs:125-147 | page 1 of size 2 descending starts with "Test 5" and ends with "Test 4" |

## Left out

- `PaginatedExtensions.ApplyPaging`: the offset is `(page - 1) * pageSize` in unbounded integers. The code computes it in unchecked 32-bit arithmetic. `PageOffsetAsWritten` models the wrap, `OffsetAsWrittenAgrees` shows the two agree whenever the product fits, and the disagreement is under Findings.
- `AutoCompleteQueryHandler.HandleAsync`: `pageSize + 1` and the offset are unbounded integers. The 32-bit wrap of both is under Findings.
- The `IEnumerable` overloads of `ApplyOrdering` (OrderingExtension.cs:5-9) only call `AsQueryable`. The parameterless overloads are the empty directive list; the handler uses one of them.
- `ThrowIfNull(source)`: null references do not exist in the model. A null `sorting` is modelled, as the `ArgumentNull` error.
- Reflection details are left out:
  - visibility and static/instance distinctions between `GetRuntimeProperties`, `GetProperties` and `GetProperty(name, flags)`;
  - `AmbiguousMatchException` when two properties share a name (the model takes the first declared);
  - inherited attributes.
- The generic `OrderBy`/`ThenBy` invocation through `MakeGenericMethod` and the casts to `IOrderedQueryable` are assumed to succeed.
- `string.ToLower` in the sort key depends on the current culture. It is a parameter of the entity type.
- `ToLowerInvariant` and `OrdinalIgnoreCase` fold ASCII letters only. Keys compare ordinally by character. This simplifies the code's comparison: LINQ to Objects compares string keys with `Comparer<string>.Default`, which depends on the current culture, and EF Core leaves the comparison to the database collation. The seed strings of the unit tests order the same way under each of these. Null keys and null column names are not modelled.
- Asynchrony, cancellation and EF Core query translation are left out. So are executing the count and the page as separate queries, and logging in the handler base class.
- `GetQuery(filter)` and `OrderByName` are parameters of `HandleAsync`. The subclass that supplies them is not part of this model.
- For FluentValidation only validity is modelled: no error messages, no cascade modes; the validator classes are predicates over the paging inputs.
- The DTO classes are datatypes. `PaginatedResult.Count` is a `long` in the code and an unbounded integer here. `AutoCompleteResult` is the one class, because the handler sets its properties after constructing it.

## Findings

| source | as written | input that shows it | evidently intended | confidence | as-written member | corrected member |
|---|---|---|---|---|---|---|
| Cross.DataFilter/Extensions/PaginatedExtensions.cs:12 | the offset `(page - 1) * pageSize` is computed in unchecked 32-bit arithmetic | page 3, page size 2^30, at most 2^30 rows: the offset wraps to -2^31, so Skip skips nothing and the first rows come back | an empty page, since the page starts past the last row | not executed; assumes the default unchecked context | `PaginatedExtensions.WrappedOffsetReturnsFirstRows` | `PaginatedExtensions.PagesTile` |
| Cross.DataFilter/Handlers/AutoCompleteQueryHandler.cs:26 | the same offset; the autocomplete validator bounds only the page size | page 4294969, page size 500 (accepted by the validator), at least 501 rows: the offset wraps to -2147483296 and the first 501 rows are fetched | no rows: the page lies beyond any list of at most 2^31 rows | not executed; assumes the default unchecked context | `AutoCompleteQueryHandler.ValidatedRequestWraps` | `AutoCompleteQueryHandler.ValidatedOutcome` |
| Cross.DataFilter/Handlers/AutoCompleteQueryHandler.cs:26 | the take count `pageSize + 1` is computed in unchecked 32-bit arithmetic | page size int.MaxValue with a page: the count wraps to int.MinValue and nothing is fetched | every row of the page | not executed; the validator rejects such a page size | `AutoCompleteQueryHandler.MaxPageSizeFetchesNothing` | `AutoCompleteQueryHandler.PagedOutcome` |
| Cross.DataFilter/Handlers/PaginatedItemsQueryValidator.cs:8-9 | the second `When(Page.HasValue)` also guards the `NotNull` before it, which thus runs only when Page is present and never fails | Page null, PageSize 1: accepted, and PaginateAsync returns every row (two rows for a page size of one) | Page required whenever PageSize is given | not executed; relies on FluentValidation's default condition scope (all preceding validators) | `PaginatedItemsQueryValidator.PageSizeWithoutPageAccepted` | `PaginatedItemsQueryValidator.AcceptsIntendedIff` |
