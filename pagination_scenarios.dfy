/**
 * The paging scenarios of the unit tests: five entities "Test 1" … "Test 5", sorted on Name and
 * paged. The test entity's declaration is not part of this model; from the seed data it is
 * taken to have an int Id and a string Name, assumed to carry no attributes.
 */
module PaginationScenarios {
  import opened Wrappers
  import opened Text
  import opened Dtos
  import opened Attributes
  import opened Queryable
  import opened OrderingExtension
  import opened PaginatedExtensions
  import StableSort

  datatype TestEntity = TestEntity(id: int, name: string)

  /** A property without attributes. */
  function Column(name: string, kind: Kind): Property {
    Property(name, None, None, false, None, None, None, kind, [])
  }

  function TestProperties(): seq<Property> {
    [Column("Id", Scalar), Column("Name", Text)]
  }

  function ReadTest(): (TestEntity, string) -> Value {
    (e: TestEntity, path: string) => if path == "Name" then Str(e.name) else Num(e.id)
  }

  function TestType(): EntityType<TestEntity> {
    EntityType(TestProperties(), ReadTest(), ToLowerInvariant)
  }

  /** The entity with Id k and Name "Test k". */
  function Numbered(k: nat): TestEntity
    requires 1 <= k <= 9
  {
    TestEntity(k, "Test " + [('0' as int + k) as char])
  }

  function Seed(): seq<TestEntity> {
    [Numbered(1), Numbered(2), Numbered(3), Numbered(4), Numbered(5)]
  }

  function SortByName(d: SortDirection): Option<seq<SortingDto>> {
    Some([SortingDto("Name", Some(d))])
  }

  /** "Name" answers to the second property only. */
  lemma NameResolves()
    ensures ResolvedProperty(TestProperties(), "Name") == Ok(Column("Name", Text))
    ensures PathKey(TestProperties(), "Name", Asc) == Ok(OrderStep("Name", Asc, true))
    ensures PathKey(TestProperties(), "Name", Desc) == Ok(OrderStep("Name", Desc, true))
  {
    var props := TestProperties();
    assert !AnswersTo(props[0], "Name");
    assert AnswersTo(props[1], "Name");
    LookupSimpleName(props, "Name");
    assert FindDeclared(props, "Name") == Some(1);
    PathKeySimpleName(props, "Name", Asc);
    PathKeySimpleName(props, "Name", Desc);
  }

  /** The directive on "Name" expands to one step on it. */
  lemma NameDirective(d: SortDirection)
    ensures DirectiveSteps(TestProperties(), [SortingDto("Name", Some(d))]) == Ok([OrderStep("Name", d, true)])
  {
    var props := TestProperties();
    var dto := SortingDto("Name", Some(d));
    var st := OrderStep("Name", d, true);
    NameResolves();
    assert ["Name"][1..] == [] && [dto][1..] == [] && [st] + [] == [st];
    assert PathStepOf(props, d)("Name") == Ok([st]);
    assert Collect(["Name"], PathStepOf(props, d)) == Ok([st]);
    assert DirectiveStep(props, dto) == Ok([st]);
    assert DirectiveStepOf(props)(dto) == Ok([st]);
    assert Collect([dto], DirectiveStepOf(props)) == Ok([st]);
  }

  /** Sorting on "Name" resolves to the Name property and yields one step on it, lower-cased
   *  because it is a string; no required sort is added. */
  lemma NamePlan(d: SortDirection)
    ensures OrderingPlan(TestProperties(), SortByName(d)) == Ok([OrderStep("Name", d, true)])
  {
    NameDirective(d);
    NoRequiredSortProperties(TestProperties(), [SortingDto("Name", Some(d))]);
    PlanWithoutRequiredSorts(TestProperties(), [SortingDto("Name", Some(d))]);
  }

  /** The lower-cased names compare by their last character. */
  lemma NameKeys(d: SortDirection, k: nat, l: nat)
    requires 1 <= k < l <= 9
    ensures CompareChain(TestType(), [OrderStep("Name", d, true)], Numbered(k), Numbered(l)) == if d == Asc then -1 else 1
  {
    var ck, cl := ('0' as int + k) as char, ('0' as int + l) as char;
    assert ToLowerInvariant("Test " + [ck]) == "test " + [ck];
    assert ToLowerInvariant("Test " + [cl]) == "test " + [cl];
    CompareOrdinalLastChar("test ", ck, cl);
  }

  /** Any two rows of the seed compare by their position, reversed when descending. */
  lemma SeedOrder(d: SortDirection, i: nat, j: nat)
    requires i < j < |Seed()|
    ensures CompareChain(TestType(), [OrderStep("Name", d, true)], Seed()[i], Seed()[j]) == if d == Asc then -1 else 1
  {
    assert Seed()[i] == Numbered(i + 1) && Seed()[j] == Numbered(j + 1);
    NameKeys(d, i + 1, j + 1);
  }

  /** Sorted on Name, the seed comes out in the order given when ascending, reversed when
   *  descending. */
  lemma SortedSeed(d: SortDirection)
    ensures ToList(TestType(), Query(Seed(), Some([OrderStep("Name", d, true)]))) ==
      if d == Asc then Seed() else StableSort.Reverse(Seed())
  {
    var s := Seed();
    var le := ChainLe(TestType(), [OrderStep("Name", d, true)]);
    if d == Asc {
      forall i, j | 0 <= i < j < |s| ensures le(s[i], s[j]) {
        SeedOrder(d, i, j);
      }
      StableSort.SortOfSorted(s, le);
    } else {
      forall i, j | 0 <= i < j < |s| ensures !le(s[i], s[j]) {
        SeedOrder(d, i, j);
      }
      StableSort.SortOfStrictlyDescending(s, le);
    }
  }

  lemma ReversedSeed()
    ensures StableSort.Reverse(Seed()) == [Numbered(5), Numbered(4), Numbered(3), Numbered(2), Numbered(1)]
  {
  }

  /** The sorted query ApplyOrdering builds from the unordered seed. */
  lemma OrderedSeed(d: SortDirection)
    ensures Ordered(TestType(), Query(Seed(), None), SortByName(d)) == Ok(Query(Seed(), Some([OrderStep("Name", d, true)])))
  {
    NamePlan(d);
    var st := OrderStep("Name", d, true);
    assert AddSteps(TestType(), Query(Seed(), None), [st]) == AddSingleOrder(TestType(), Query(Seed(), None), st);
  }

  /** Page 1 of size 2 is the first two rows. */
  lemma FirstTwo<T>(s: seq<T>)
    requires |s| >= 2
    ensures ApplyPaging(s, Some(1), Some(2)) == [s[0], s[1]]
  {
  }

  /** Page 1 of size 2, ascending: two rows, the first two, and a count of five. */
  lemma FirstPageAscending()
    ensures Paginate(TestType(), Query(Seed(), None), Some(1), Some(2), SortByName(Asc)) ==
      Ok(PaginatedResult(Some(1), Some(2), 5, [Numbered(1), Numbered(2)]))
  {
    OrderedSeed(Asc);
    SortedSeed(Asc);
    PaginateOrdered(TestType(), Query(Seed(), None), Some(1), Some(2), SortByName(Asc));
    FirstTwo(Seed());
  }

  /** Page 10 of size 999 starts far beyond the five rows: no data, and still a count of five. */
  lemma PageBeyondTheEnd()
    ensures Paginate(TestType(), Query(Seed(), None), Some(10), Some(999), SortByName(Asc)) ==
      Ok(PaginatedResult(Some(10), Some(999), 5, []))
  {
    OrderedSeed(Asc);
    SortedSeed(Asc);
    PaginateOrdered(TestType(), Query(Seed(), None), Some(10), Some(999), SortByName(Asc));
    EmptyPages(Seed(), 10, 999);
  }

  /** Page 1 of size 2, descending: "Test 5" first and "Test 4" last. */
  lemma FirstPageDescending()
    ensures Paginate(TestType(), Query(Seed(), None), Some(1), Some(2), SortByName(Desc)) ==
      Ok(PaginatedResult(Some(1), Some(2), 5, [Numbered(5), Numbered(4)]))
  {
    OrderedSeed(Desc);
    SortedSeed(Desc);
    ReversedSeed();
    PaginateOrdered(TestType(), Query(Seed(), None), Some(1), Some(2), SortByName(Desc));
    FirstTwo([Numbered(5), Numbered(4), Numbered(3), Numbered(2), Numbered(1)]);
  }
}
