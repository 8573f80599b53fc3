/**
 * AutoCompleteQueryValidator: when a page size is given it must lie between 1 and 500, and a
 * page must be given too and be positive. Without a page size nothing is checked.
 */
module AutoCompleteQueryValidator {
  import opened Wrappers
  import opened Dtos
  import opened Validation

  const MaxPageSize := 500

  /** The PageSize rule with the condition of the enclosing When attached. */
  function PageSizeRule(): Rule<Paging> {
    When(Add(RuleFor(PageSizeOf()), InclusiveBetween(1, MaxPageSize)), PageSizeHasValue())
  }

  /** The Page rule with the condition of the enclosing When attached. */
  function PageRule(): Rule<Paging> {
    When(Add(Add(RuleFor(PageOf()), NotNull), GreaterThan(0)), PageSizeHasValue())
  }

  /** The two rules declared inside When(x => x.PageSize.HasValue, …). */
  function Rules(): seq<Rule<Paging>> {
    WhenAll(PageSizeHasValue(), [
      Add(RuleFor(PageSizeOf()), InclusiveBetween(1, MaxPageSize)),
      Add(Add(RuleFor(PageOf()), NotNull), GreaterThan(0))
    ])
  }

  predicate Accepts(x: Paging) {
    IsValid(Rules(), x)
  }

  lemma RulesAre()
    ensures Rules() == [PageSizeRule(), PageRule()]
  {
  }

  /** The PageSize rule: with a page size, that size is between 1 and 500. */
  lemma PageSizeRuleIff(x: Paging)
    ensures RuleHolds(PageSizeRule(), x) <==> (x.pageSize.Some? ==> 1 <= x.pageSize.value <= MaxPageSize)
  {
    var r := PageSizeRule();
    assert r.components[0] == Component(InclusiveBetween(1, MaxPageSize), [PageSizeHasValue()]);
    RunsOf(r.components[0], x);
  }

  /** The Page rule: with a page size, a page is required and is at least 1. */
  lemma PageRuleIff(x: Paging)
    ensures RuleHolds(PageRule(), x) <==> (x.pageSize.Some? ==> x.page.Some? && x.page.value > 0)
  {
    var r := PageRule();
    assert r.components[0] == Component(NotNull, [PageSizeHasValue()]);
    assert r.components[1] == Component(GreaterThan(0), [PageSizeHasValue()]);
    RunsOf(r.components[0], x);
    RunsOf(r.components[1], x);
  }

  /** A request is accepted exactly when, if it names a page size, that size is between 1 and
   *  500 and it also names a page of at least 1. */
  lemma AcceptsIff(x: Paging)
    ensures Accepts(x) <==>
      (x.pageSize.Some? ==> 1 <= x.pageSize.value <= MaxPageSize && x.page.Some? && x.page.value > 0)
  {
    RulesAre();
    IsValidOfTwo(PageSizeRule(), PageRule(), x);
    PageSizeRuleIff(x);
    PageRuleIff(x);
  }
}
