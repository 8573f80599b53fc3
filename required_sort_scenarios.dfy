/**
 * A record type with attributes on its properties, described through the attribute
 * constructors: Id carries [RequiredSort(0)] (which descends) and Name carries [Sort].
 */
module RequiredSortScenarios {
  import opened Wrappers
  import opened Text
  import opened Dtos
  import opened Attributes
  import opened Queryable
  import opened OrderingExtension
  import StableSort

  function IdProperty(): Property {
    Property("Id", None, None, false, None, Some(RequiredSortAt(0)), None, Scalar, [])
  }

  function NameProperty(): Property {
    Property("Name", None, None, false, Some(Sort()), None, None, Text, [])
  }

  function AttributedProperties(): seq<Property> {
    [IdProperty(), NameProperty()]
  }

  /** A property declared with [JsonPropertyName("id")], so that "id" answers to it. */
  function KeyProperty(): Property {
    Property("Key", Some("id"), None, false, None, None, None, Scalar, [])
  }

  /** A second type: Key, named "id" in JSON, declared before Id with [RequiredSort(0)]. */
  function ShadowedProperties(): seq<Property> {
    [KeyProperty(), IdProperty()]
  }

  // Facts about any one-directive request and any two-property table, proved once on
  // variables so that the scenarios below only instantiate them.

  lemma CollectOne<X>(x: X, f: X -> Result<seq<OrderStep>, Error>)
    ensures Collect([x], f) == f(x)
  {
    assert [x][1..] == [];
    if f(x).Ok? {
      assert f(x).value + [] == f(x).value;
    }
  }

  lemma OneDirectivePlan(props: seq<Property>, dto: SortingDto, main: seq<OrderStep>, required: seq<OrderStep>)
    requires DirectiveStep(props, dto) == Ok(main)
    requires AttributedSteps(props, RequiredSorts(props, [dto])) == Ok(required)
    ensures OrderingPlan(props, Some([dto])) == Ok(main + required)
  {
    CollectOne(dto, DirectiveStepOf(props));
  }

  lemma OneAttributed(props: seq<Property>, a: Attributed)
    ensures AttributedSteps(props, [a]) == PropertySteps(props, a.property, a.attr.direction)
  {
    CollectOne(a, AttributedStepOf(props));
  }

  /** A property without [SortBy] whose type is not a class sorts on its own declared name. */
  lemma PlainSteps(props: seq<Property>, p: Property, d: SortDirection, i: nat)
    requires p.sortBy.None? && p.kind != Class && p.name != [] && '.' !in p.name
    requires i < |props| && FindDeclared(props, p.name) == Some(i)
    ensures PropertySteps(props, p, d) == Ok([OrderStep(p.name, d, props[i].kind == Text)])
  {
    PathKeySimpleName(props, p.name, d);
    CollectOne(p.name, PathStepOf(props, d));
  }

  lemma PairIndices(x: Property, y: Property, keep: Property -> bool)
    ensures Indices([x, y], keep, 0) == (if keep(x) then [0] else []) + (if keep(y) then [1] else [])
  {
    assert Indices([x, y], keep, 2) == [];
    assert Indices([x, y], keep, 1) == (if keep(y) then [1] else []) + [];
  }

  lemma SortOne(a: Attributed)
    ensures StableSort.Sort([a], ByOrder()) == [a]
  {
    StableSort.SortOfSorted([a], ByOrder());
  }

  lemma PairRequired(x: Property, y: Property, dto: SortingDto)
    requires IsRequiredFor([dto.sortColumnName])(x) && !IsRequiredFor([dto.sortColumnName])(y)
    ensures RequiredSorts([x, y], [dto]) == [Attributed(x, x.requiredSort.value)]
  {
    assert ColumnNames([dto]) == [dto.sortColumnName];
    PairIndices(x, y, IsRequiredFor([dto.sortColumnName]));
    assert WithRequiredSort([x, y], [dto.sortColumnName]) == [Attributed(x, x.requiredSort.value)];
    SortOne(Attributed(x, x.requiredSort.value));
  }

  lemma PairRequiredSecond(x: Property, y: Property, dto: SortingDto)
    requires !IsRequiredFor([dto.sortColumnName])(x) && IsRequiredFor([dto.sortColumnName])(y)
    ensures RequiredSorts([x, y], [dto]) == [Attributed(y, y.requiredSort.value)]
  {
    assert ColumnNames([dto]) == [dto.sortColumnName];
    PairIndices(x, y, IsRequiredFor([dto.sortColumnName]));
    assert WithRequiredSort([x, y], [dto.sortColumnName]) == [Attributed(y, y.requiredSort.value)];
    SortOne(Attributed(y, y.requiredSort.value));
  }

  lemma PairNotRequired(x: Property, y: Property, dto: SortingDto)
    requires !IsRequiredFor([dto.sortColumnName])(x) && !IsRequiredFor([dto.sortColumnName])(y)
    ensures RequiredSorts([x, y], [dto]) == []
  {
    assert ColumnNames([dto]) == [dto.sortColumnName];
    PairIndices(x, y, IsRequiredFor([dto.sortColumnName]));
  }

  lemma PairDefault(x: Property, y: Property)
    requires x.sort.None? && y.sort.Some?
    ensures DefaultSorts([x, y]) == [Attributed(y, y.sort.value)]
  {
    PairIndices(x, y, HasSort());
    assert WithSort([x, y]) == [Attributed(y, y.sort.value)];
    SortOne(Attributed(y, y.sort.value));
  }

  // The scenarios.

  /** Both "Id" and "id" answer to Id, which sorts on itself as a non-string key. */
  lemma IdResolves(column: string, d: SortDirection)
    requires column == "Id" || column == "id"
    ensures ResolvedProperty(AttributedProperties(), column) == Ok(IdProperty())
    ensures DirectiveStep(AttributedProperties(), SortingDto(column, Some(d))) == Ok([OrderStep("Id", d, false)])
  {
    var props := AttributedProperties();
    assert AnswersTo(props[0], column);
    LookupSimpleName(props, column);
    assert FindDeclared(props, "Id") == Some(0);
    PlainSteps(props, IdProperty(), d, 0);
  }

  /** A directive that resolves to the first of two properties and names it by its lower-cased
   *  name, when that property carries [RequiredSort] and sorts on itself: its step, then
   *  its required step. */
  lemma RequiredPair(x: Property, y: Property, dto: SortingDto, d: SortDirection)
    requires dto.sortDirection == Some(d)
    requires DirectiveStep([x, y], dto) == Ok([OrderStep(x.name, d, x.kind == Text)])
    requires x.sortBy.None? && x.kind != Class && x.name != [] && '.' !in x.name && FindDeclared([x, y], x.name) == Some(0)
    requires IsRequiredFor([dto.sortColumnName])(x) && !IsRequiredFor([dto.sortColumnName])(y)
    ensures OrderingPlan([x, y], Some([dto])) ==
      Ok([OrderStep(x.name, d, x.kind == Text), OrderStep(x.name, x.requiredSort.value.direction, x.kind == Text)])
  {
    PairRequired(x, y, dto);
    OneAttributed([x, y], Attributed(x, x.requiredSort.value));
    PlainSteps([x, y], x, x.requiredSort.value.direction, 0);
    var first := OrderStep(x.name, d, x.kind == Text);
    var second := OrderStep(x.name, x.requiredSort.value.direction, x.kind == Text);
    assert AttributedSteps([x, y], RequiredSorts([x, y], [dto])) == Ok([second]);
    OneDirectivePlan([x, y], dto, [first], [second]);
    assert [first] + [second] == [first, second];
  }

  /** Sorting on "id" sorts on Id twice: first as asked, then descending as [RequiredSort(0)]
   *  demands. */
  lemma LowerCaseColumnSortsTwice(d: SortDirection)
    ensures OrderingPlan(AttributedProperties(), Some([SortingDto("id", Some(d))])) ==
      Ok([OrderStep("Id", d, false), OrderStep("Id", Desc, false)])
  {
    IdResolves("id", d);
    assert ToLowerInvariant("Id") == "id";
    assert FindDeclared(AttributedProperties(), "Id") == Some(0);
    RequiredPair(IdProperty(), NameProperty(), SortingDto("id", Some(d)), d);
  }

  /** A directive whose column is the lower-cased name of the second of two properties, which
   *  carries [RequiredSort] and sorts on itself, while the directive resolves to whatever it
   *  resolves to: the directive's steps, then one required step on the second property. */
  lemma RequiredElsewherePair(x: Property, y: Property, dto: SortingDto, main: seq<OrderStep>)
    requires DirectiveStep([x, y], dto) == Ok(main)
    requires y.sortBy.None? && y.kind != Class && y.name != [] && '.' !in y.name && FindDeclared([x, y], y.name) == Some(1)
    requires !IsRequiredFor([dto.sortColumnName])(x) && IsRequiredFor([dto.sortColumnName])(y)
    ensures OrderingPlan([x, y], Some([dto])) ==
      Ok(main + [OrderStep(y.name, y.requiredSort.value.direction, y.kind == Text)])
  {
    PairRequiredSecond(x, y, dto);
    OneAttributed([x, y], Attributed(y, y.requiredSort.value));
    PlainSteps([x, y], y, y.requiredSort.value.direction, 1);
    var second := OrderStep(y.name, y.requiredSort.value.direction, y.kind == Text);
    assert AttributedSteps([x, y], RequiredSorts([x, y], [dto])) == Ok([second]);
    OneDirectivePlan([x, y], dto, main, [second]);
  }

  /** On the second type "id" resolves to Key, declared first, which sorts on itself. */
  lemma KeyResolves(d: SortDirection)
    ensures ResolvedProperty(ShadowedProperties(), "id") == Ok(KeyProperty())
    ensures DirectiveStep(ShadowedProperties(), SortingDto("id", Some(d))) == Ok([OrderStep("Key", d, false)])
  {
    var props := ShadowedProperties();
    assert AnswersTo(props[0], "id");
    LookupSimpleName(props, "id");
    assert FindDeclared(props, "Key") == Some(0);
    PlainSteps(props, KeyProperty(), d, 0);
  }

  /** "id" is Id's lower-cased name and not Key's, and Id sorts on itself. */
  lemma IdRequiredForId()
    ensures !IsRequiredFor(["id"])(KeyProperty()) && IsRequiredFor(["id"])(IdProperty())
    ensures FindDeclared(ShadowedProperties(), "Id") == Some(1)
  {
    assert ToLowerInvariant("Key") == "key";
    assert ToLowerInvariant("Id") == "id";
  }

  /** Yet "id" is Id's lower-cased name: the plan sorts on Key as asked and then on Id
   *  descending, so Id is sorted once, at the end. */
  lemma ShadowedColumnSortsRequiredOnce(d: SortDirection)
    ensures OrderingPlan(ShadowedProperties(), Some([SortingDto("id", Some(d))])) ==
      Ok([OrderStep("Key", d, false), OrderStep("Id", Desc, false)])
  {
    KeyResolves(d);
    IdRequiredForId();
    var first := OrderStep("Key", d, false);
    var second := OrderStep("Id", Desc, false);
    RequiredElsewherePair(KeyProperty(), IdProperty(), SortingDto("id", Some(d)), [first]);
    assert [first] + [second] == [first, second];
  }

  /** A directive that selects no required sort on a two-property table: its steps alone. */
  lemma UnrequiredPair(x: Property, y: Property, dto: SortingDto, main: seq<OrderStep>)
    requires DirectiveStep([x, y], dto) == Ok(main)
    requires !IsRequiredFor([dto.sortColumnName])(x) && !IsRequiredFor([dto.sortColumnName])(y)
    ensures OrderingPlan([x, y], Some([dto])) == Ok(main)
  {
    PairNotRequired(x, y, dto);
    assert AttributedSteps([x, y], []) == Ok([]);
    OneDirectivePlan([x, y], dto, main, []);
    assert main + [] == main;
  }

  /** Sorting on "Id", which is not the lower-cased name, adds no required sort. */
  lemma DeclaredCaseColumnSortsOnce(d: SortDirection)
    ensures OrderingPlan(AttributedProperties(), Some([SortingDto("Id", Some(d))])) == Ok([OrderStep("Id", d, false)])
  {
    IdResolves("Id", d);
    assert ToLowerInvariant("Id") == "id";
    UnrequiredPair(IdProperty(), NameProperty(), SortingDto("Id", Some(d)), [OrderStep("Id", d, false)]);
  }

  /** Two properties of which only the second carries [Sort], sorting on itself: without
   *  directives and without required sorts, the plan is its one step. */
  lemma DefaultPair(x: Property, y: Property)
    requires x.sort.None? && y.sort.Some?
    requires y.sortBy.None? && y.kind != Class && y.name != [] && '.' !in y.name && FindDeclared([x, y], y.name) == Some(1)
    ensures OrderingPlan([x, y], Some([])) == Ok([OrderStep(y.name, y.sort.value.direction, y.kind == Text)])
  {
    NoDirectivesUseDefaults([x, y]);
    PairDefault(x, y);
    OneAttributed([x, y], Attributed(y, y.sort.value));
    PlainSteps([x, y], y, y.sort.value.direction, 1);
  }

  /** Without directives the default chain is the [Sort] on Name, ascending. */
  lemma DefaultSortOnName()
    ensures OrderingPlan(AttributedProperties(), Some([])) == Ok([OrderStep("Name", Asc, true)])
  {
    assert FindDeclared(AttributedProperties(), "Name") == Some(1);
    DefaultPair(IdProperty(), NameProperty());
  }
}
