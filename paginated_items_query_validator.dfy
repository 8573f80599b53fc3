/**
 * PaginatedItemsQueryValidator: the rules on the Page and PageSize of a paginated request.
 * Each rule's second `When` is attached to the NotNull declared before it as well, so the Page
 * NotNull runs only when both values are present, where it cannot fail.
 */
module PaginatedItemsQueryValidator {
  import opened Wrappers
  import opened Dtos
  import opened Validation
  import PaginatedExtensions

  const IntMaxValue := 0x7fff_ffff

  /** RuleFor(x => x.Page).NotNull().When(PageSize.HasValue).InclusiveBetween(0, int.MaxValue).When(Page.HasValue). */
  function PageRule(): Rule<Paging> {
    When(Add(When(Add(RuleFor(PageOf()), NotNull), PageSizeHasValue()), InclusiveBetween(0, IntMaxValue)), PageHasValue())
  }

  /** RuleFor(x => x.PageSize).NotNull().When(Page.HasValue).InclusiveBetween(0, int.MaxValue).When(Page.HasValue). */
  function PageSizeRule(): Rule<Paging> {
    When(Add(When(Add(RuleFor(PageSizeOf()), NotNull), PageHasValue()), InclusiveBetween(0, IntMaxValue)), PageHasValue())
  }

  predicate Accepts(x: Paging) {
    IsValid([PageRule(), PageSizeRule()], x)
  }

  /** The Page rule: a page, when given, is not negative. */
  lemma PageRuleIff(x: Paging)
    ensures RuleHolds(PageRule(), x) <==> (x.page.Some? ==> x.page.value >= 0)
  {
    var r := PageRule();
    assert r.components[0] == Component(NotNull, [PageSizeHasValue(), PageHasValue()]);
    assert r.components[1] == Component(InclusiveBetween(0, IntMaxValue), [PageHasValue()]);
    RunsOf(r.components[0], x);
    RunsOf(r.components[1], x);
    assert Runs(r.components[0], x) <==> x.pageSize.Some? && x.page.Some?;
    assert Runs(r.components[1], x) <==> x.page.Some?;
  }

  /** The PageSize rule: with a page, a page size is required and is not negative. */
  lemma PageSizeRuleIff(x: Paging)
    ensures RuleHolds(PageSizeRule(), x) <==> (x.page.Some? ==> x.pageSize.Some? && x.pageSize.value >= 0)
  {
    var r := PageSizeRule();
    assert r.components[0] == Component(NotNull, [PageHasValue(), PageHasValue()]);
    assert r.components[1] == Component(InclusiveBetween(0, IntMaxValue), [PageHasValue()]);
    RunsOf(r.components[0], x);
    RunsOf(r.components[1], x);
    assert Runs(r.components[0], x) <==> x.page.Some?;
    assert Runs(r.components[1], x) <==> x.page.Some?;
  }

  /** A request is accepted exactly when, if it names a page, that page is not negative and it
   *  also names a page size that is not negative. Page 0 is accepted. */
  lemma AcceptsIff(x: Paging)
    ensures Accepts(x) <==> (x.page.Some? ==> x.page.value >= 0 && x.pageSize.Some? && x.pageSize.value >= 0)
  {
    IsValidOfTwo(PageRule(), PageSizeRule(), x);
    PageRuleIff(x);
    PageSizeRuleIff(x);
  }

  /** With the rules as written, a page size without a page is accepted, and the request then
   *  comes back unpaged: two rows for a page size of one. */
  lemma PageSizeWithoutPageAccepted<T>(a: T, b: T)
    ensures Accepts(Paging(None, Some(1)))
    ensures PaginatedExtensions.ApplyPaging([a, b], None, Some(1)) == [a, b]
  {
    AcceptsIff(Paging(None, Some(1)));
  }

  /** The Page rule as its first `When` reads: NotNull whenever a page size is given, the range
   *  check only when a page is given (ApplyConditionTo.CurrentValidator on the second `When`). */
  function IntendedPageRule(): Rule<Paging> {
    WhenCurrent(Add(When(Add(RuleFor(PageOf()), NotNull), PageSizeHasValue()), InclusiveBetween(0, IntMaxValue)), PageHasValue())
  }

  predicate AcceptsIntended(x: Paging) {
    IsValid([IntendedPageRule(), PageSizeRule()], x)
  }

  /** With the intended Page rule, a page and a page size are given together or not at all, and
   *  neither is negative. */
  lemma AcceptsIntendedIff(x: Paging)
    ensures AcceptsIntended(x) <==>
      (x.page.Some? <==> x.pageSize.Some?) &&
      (x.page.Some? ==> x.page.value >= 0 && x.pageSize.value >= 0)
  {
    var r := IntendedPageRule();
    assert r.components[0] == Component(NotNull, [PageSizeHasValue()]);
    assert r.components[1] == Component(InclusiveBetween(0, IntMaxValue), [PageHasValue()]);
    RunsOf(r.components[0], x);
    RunsOf(r.components[1], x);
    assert Runs(r.components[0], x) <==> x.pageSize.Some?;
    assert Runs(r.components[1], x) <==> x.page.Some?;
    PageSizeRuleIff(x);
    IsValidOfTwo(r, PageSizeRule(), x);
  }

  /** Every request the intended rules accept that names a page size gets at most that many
   *  rows back. */
  lemma IntendedBoundsPage<T>(rows: seq<T>, x: Paging)
    requires AcceptsIntended(x) && x.pageSize.Some?
    ensures |PaginatedExtensions.ApplyPaging(rows, x.page, x.pageSize)| <= x.pageSize.value
  {
    AcceptsIntendedIff(x);
  }
}
