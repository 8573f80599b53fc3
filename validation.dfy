/**
 * The part of FluentValidation the two validators use. A rule (RuleFor) validates one property
 * with a chain of property validators. `When` on a rule attaches its condition to every validator
 * declared before it in that chain (FluentValidation's default, ApplyConditionTo.AllValidators),
 * so a validator that is followed by two `When`s runs only when both conditions hold. The
 * comparison validators pass on a null value; only NotNull rejects it.
 */
module Validation {
  import opened Wrappers
  import opened Dtos

  /** The property validators used: NotNull, InclusiveBetween and GreaterThan. */
  datatype Check = NotNull | InclusiveBetween(from: int, to: int) | GreaterThan(bound: int)

  /** Whether a property value passes one validator. */
  predicate Passes(c: Check, v: Option<Int32>) {
    match c
    case NotNull => v.Some?
    case InclusiveBetween(from, to) => v.None? || from <= v.value <= to
    case GreaterThan(bound) => v.None? || v.value > bound
  }

  /** A validator together with the conditions attached to it. */
  datatype Component<-X> = Component(check: Check, conditions: seq<X -> bool>)

  /** A rule: the property it reads and its validators in declaration order. */
  datatype Rule<-X> = Rule(property: X -> Option<Int32>, components: seq<Component<X>>)

  /** RuleFor(property): a rule with no validators yet. */
  function RuleFor<X>(property: X -> Option<Int32>): Rule<X> {
    Rule(property, [])
  }

  /** Appending a validator to the chain (.NotNull(), .InclusiveBetween(…), .GreaterThan(…)). */
  function Add<X>(r: Rule<X>, c: Check): (w: Rule<X>)
    ensures w.property == r.property && w.components == r.components + [Component(c, [])]
  {
    Rule(r.property, r.components + [Component(c, [])])
  }

  /** .When(condition): the condition is attached to every validator declared so far. */
  function When<X>(r: Rule<X>, condition: X -> bool): (w: Rule<X>)
    ensures w.property == r.property && |w.components| == |r.components|
    ensures forall i :: 0 <= i < |r.components| ==>
              w.components[i].check == r.components[i].check &&
              w.components[i].conditions == r.components[i].conditions + [condition]
  {
    Rule(r.property, seq(|r.components|, i requires 0 <= i < |r.components| =>
      Component(r.components[i].check, r.components[i].conditions + [condition])))
  }

  /** .When(condition, ApplyConditionTo.CurrentValidator): the condition is attached to the last
   *  validator declared only. */
  function WhenCurrent<X>(r: Rule<X>, condition: X -> bool): (w: Rule<X>)
    requires |r.components| > 0
    ensures w.property == r.property && |w.components| == |r.components|
    ensures w.components[..|r.components| - 1] == r.components[..|r.components| - 1]
    ensures var last := r.components[|r.components| - 1];
            w.components[|r.components| - 1] == Component(last.check, last.conditions + [condition])
  {
    var n := |r.components| - 1;
    var last := r.components[n];
    Rule(r.property, r.components[..n] + [Component(last.check, last.conditions + [condition])])
  }

  /** The validator runs on x when every condition attached to it holds of x. */
  predicate Runs<X>(c: Component<X>, x: X) {
    forall i :: 0 <= i < |c.conditions| ==> c.conditions[i](x)
  }

  /** Runs spelled out for a validator with one or two conditions. */
  lemma RunsOf<X>(c: Component<X>, x: X)
    ensures |c.conditions| == 1 ==> (Runs(c, x) <==> c.conditions[0](x))
    ensures |c.conditions| == 2 ==> (Runs(c, x) <==> c.conditions[0](x) && c.conditions[1](x))
  {
  }

  /** No validator of the rule that runs on x fails. */
  predicate RuleHolds<X>(r: Rule<X>, x: X) {
    forall i :: 0 <= i < |r.components| ==> Runs(r.components[i], x) ==> Passes(r.components[i].check, r.property(x))
  }

  /** AbstractValidator.Validate(x).IsValid: every rule holds. (With the default cascade mode every
   *  validator runs, so the errors reported do not change validity.) */
  predicate IsValid<X>(rules: seq<Rule<X>>, x: X) {
    forall i :: 0 <= i < |rules| ==> RuleHolds(rules[i], x)
  }

  /** A validator of two rules accepts x exactly when both rules hold. */
  lemma IsValidOfTwo<X>(r0: Rule<X>, r1: Rule<X>, x: X)
    ensures IsValid([r0, r1], x) <==> RuleHolds(r0, x) && RuleHolds(r1, x)
  {
    assert [r0, r1][0] == r0 && [r0, r1][1] == r1;
  }

  /** The validator-level When(condition, () => { … }): the condition is attached to every
   *  validator of every rule the action declares. */
  function WhenAll<X>(condition: X -> bool, rules: seq<Rule<X>>): (w: seq<Rule<X>>)
    ensures |w| == |rules|
    ensures forall i :: 0 <= i < |rules| ==> w[i] == When(rules[i], condition)
  {
    seq(|rules|, i requires 0 <= i < |rules| => When(rules[i], condition))
  }

  /** A rule with a condition attached to all its validators holds wherever the condition fails,
   *  and holds exactly as before wherever it holds. */
  lemma WhenGuards<X>(r: Rule<X>, condition: X -> bool, x: X)
    ensures !condition(x) ==> RuleHolds(When(r, condition), x)
    ensures condition(x) ==> (RuleHolds(When(r, condition), x) <==> RuleHolds(r, x))
  {
    var w := When(r, condition);
    forall i | 0 <= i < |r.components|
      ensures Runs(w.components[i], x) <==> Runs(r.components[i], x) && condition(x)
    {
      var cs := r.components[i].conditions;
      assert w.components[i].conditions == cs + [condition];
      assert (cs + [condition])[|cs|] == condition;
      forall j | 0 <= j < |cs| ensures (cs + [condition])[j] == cs[j] { }
    }
  }

  /** The properties and conditions the paging rules are written with. */
  function PageOf(): Paging -> Option<Int32> {
    (x: Paging) => x.page
  }

  function PageSizeOf(): Paging -> Option<Int32> {
    (x: Paging) => x.pageSize
  }

  function PageHasValue(): Paging -> bool {
    (x: Paging) => x.page.Some?
  }

  function PageSizeHasValue(): Paging -> bool {
    (x: Paging) => x.pageSize.Some?
  }
}
