/**
 * OrderingExtension: turns the caller's sort directives, the record type's property table and
 * its sorting attributes into a chain of OrderBy/ThenBy steps applied to a query.
 *
 * The loops of the source (over the directives, the default and the required sorts, the names
 * one property expands to, the levels of a name lookup and the segments of a path) are methods;
 * each is proved equal to a specification function, and the properties of the resolution are
 * lemmas about those functions.
 */
module OrderingExtension {
  import opened Wrappers
  import opened Text
  import opened Dtos
  import opened Attributes
  import opened Queryable
  import StableSort

  /** The exceptions ApplyOrdering can throw. */
  datatype Error =
    | ArgumentNull                     // ArgumentNullException: the sorting collection is null
    | PropertyNotSupported             // NotSupportedException from GetProperty: no property answers to the name
    | SortNotAllowed(column: string)   // ArgumentException: the named property carries [NoSort]
    | SortingNotPossible(path: string) // NotSupportedException from SortBy: the path does not end on a property

  // ---------------------------------------------------------------------------------------------
  // Name lookup (GetProperty)

  /** The filter of GetProperty: p answers to s by its name, its JSON name or its bind name,
   *  compared ordinally ignoring case. */
  predicate AnswersTo(p: Property, s: string) {
    || EqualsIgnoreCase(p.name, s)
    || (p.jsonName.Some? && EqualsIgnoreCase(p.jsonName.value, s))
    || (p.bindName.Some? && EqualsIgnoreCase(p.bindName.value, s))
  }

  /** Where(...).FirstOrDefault(): the index of the first property answering to s. */
  function FirstAnswering(props: seq<Property>, s: string): (r: Option<nat>)
    ensures r.Some? ==> r.value < |props|
  {
    if props == [] then None
    else if AnswersTo(props[0], s) then Some(0)
    else match FirstAnswering(props[1..], s)
      case None => None
      case Some(i) => Some(i + 1)
  }

  /** The index found is that of the first property answering to s; there is none exactly when
   *  no property answers to it. */
  lemma {:induction false} FirstAnsweringSpec(props: seq<Property>, s: string)
    ensures var r := FirstAnswering(props, s);
            (r.Some? ==> AnswersTo(props[r.value], s)) &&
            (r.Some? ==> forall j :: 0 <= j < r.value ==> !AnswersTo(props[j], s)) &&
            (r.None? <==> forall j :: 0 <= j < |props| ==> !AnswersTo(props[j], s))
  {
    if props != [] && !AnswersTo(props[0], s) {
      FirstAnsweringSpec(props[1..], s);
      assert forall j :: 1 <= j < |props| ==> props[1..][j - 1] == props[j];
    }
  }

  /** One level of the lookup: the first property answering to the WHOLE name s. */
  function LookupLevel(props: seq<Property>, s: string): Result<Property, Error> {
    match FirstAnswering(props, s)
    case None => Err(PropertyNotSupported)
    case Some(i) => Ok(props[i])
  }

  /** k levels of the lookup, each one among the properties of the previous level's type. */
  function LookupLevels(props: seq<Property>, s: string, k: nat): Result<Property, Error>
    requires k >= 1
    decreases k
  {
    if k == 1 then LookupLevel(props, s)
    else match LookupLevels(props, s, k - 1)
      case Err(e) => Err(e)
      case Ok(p) => LookupLevel(p.members, s)
  }

  /** What GetProperty returns: one level per dot-separated segment of s. */
  function ResolvedProperty(props: seq<Property>, s: string): Result<Property, Error> {
    var n := |Split(s)|;
    if n == 0 then Err(PropertyNotSupported) else LookupLevels(props, s, n)
  }

  lemma {:induction false} LookupLevelsStaysFailed(props: seq<Property>, s: string, k: nat, n: nat)
    requires 1 <= k <= n && LookupLevels(props, s, k).Err?
    ensures LookupLevels(props, s, n) == LookupLevels(props, s, k)
    decreases n
  {
    if n > k {
      LookupLevelsStaysFailed(props, s, k, n - 1);
    }
  }

  /** The state of GetProperty's loop after k segments: the property found at level k (none
   *  before the first) and the properties of its type. */
  predicate LookupState(props: seq<Property>, s: string, k: nat, found: Option<Property>, current: seq<Property>) {
    if k == 0 then found.None? && current == props
    else found.Some? && LookupLevels(props, s, k) == Ok(found.value) && current == found.value.members
  }

  lemma LookupStep(props: seq<Property>, s: string, k: nat, found: Option<Property>, current: seq<Property>)
    requires LookupState(props, s, k, found, current) && k < |Split(s)|
    ensures FirstAnswering(current, s).None? ==> ResolvedProperty(props, s) == Err(PropertyNotSupported)
    ensures FirstAnswering(current, s).Some? ==>
      var p := current[FirstAnswering(current, s).value];
      LookupState(props, s, k + 1, Some(p), p.members)
  {
    assert LookupLevels(props, s, k + 1) == LookupLevel(current, s);
    if FirstAnswering(current, s).None? {
      LookupLevelsStaysFailed(props, s, k + 1, |Split(s)|);
    }
  }

  lemma LookupDone(props: seq<Property>, s: string, found: Option<Property>, current: seq<Property>)
    requires LookupState(props, s, |Split(s)|, found, current)
    ensures ResolvedProperty(props, s) == if found.None? then Err(PropertyNotSupported) else Ok(found.value)
  {
  }

  method GetProperty(props: seq<Property>, sortPropertyName: string) returns (r: Result<Property, Error>)
    ensures r == ResolvedProperty(props, sortPropertyName)
  {
    var names := Split(sortPropertyName);
    var currentProp: Option<Property> := None;
    var currentProps := props;
    var k := 0;
    while k < |names|
      invariant 0 <= k <= |names|
      invariant LookupState(props, sortPropertyName, k, currentProp, currentProps)
    {
      LookupStep(props, sortPropertyName, k, currentProp, currentProps);
      var i := FirstAnswering(currentProps, sortPropertyName);
      if i.None? {
        return Err(PropertyNotSupported);
      }
      currentProp := Some(currentProps[i.value]);
      currentProps := currentProps[i.value].members;
      k := k + 1;
    }
    LookupDone(props, sortPropertyName, currentProp, currentProps);
    if currentProp.None? {
      return Err(PropertyNotSupported);
    }
    return Ok(currentProp.value);
  }

  /** A name without dots finds the first property, in declaration order, that answers to it by
   *  its name, JSON name or bind name ignoring case, and fails when there is none. */
  lemma LookupSimpleName(props: seq<Property>, s: string)
    requires s != [] && '.' !in s
    ensures ResolvedProperty(props, s).Ok? <==> exists i :: 0 <= i < |props| && AnswersTo(props[i], s)
    ensures ResolvedProperty(props, s).Err? ==> ResolvedProperty(props, s) == Err(PropertyNotSupported)
    ensures ResolvedProperty(props, s).Ok? ==>
      exists i :: 0 <= i < |props| && props[i] == ResolvedProperty(props, s).value && AnswersTo(props[i], s) &&
        forall j :: 0 <= j < i ==> !AnswersTo(props[j], s)
  {
    SplitDotFree(s);
    FirstAnsweringSpec(props, s);
    if FirstAnswering(props, s).Some? {
      var i := FirstAnswering(props, s).value;
      assert props[i] == ResolvedProperty(props, s).value;
    }
  }

  /** An empty name, or one made only of dots, fails. */
  lemma LookupEmptyNameFails(props: seq<Property>, s: string)
    requires forall i :: 0 <= i < |s| ==> s[i] == '.'
    ensures ResolvedProperty(props, s) == Err(PropertyNotSupported)
  {
    SplitPieces(s);
  }

  /** Every level compares the whole name: when no property of the type itself answers to s,
   *  the lookup fails, whatever the nested properties are called. */
  lemma {:induction false} LookupNeedsTopLevelMatch(props: seq<Property>, s: string, k: nat)
    requires k >= 1 && forall i :: 0 <= i < |props| ==> !AnswersTo(props[i], s)
    ensures LookupLevels(props, s, k) == Err(PropertyNotSupported)
    decreases k
  {
    if k > 1 {
      LookupNeedsTopLevelMatch(props, s, k - 1);
    } else {
      FirstAnsweringSpec(props, s);
    }
  }

  /** So a dotted name such as "A.B" never reaches a nested property B: unless some property of
   *  the type itself has a name or alternate name containing a dot, it fails. */
  lemma DottedNameFails(props: seq<Property>, s: string)
    requires '.' in s
    requires forall i :: 0 <= i < |props| ==> '.' !in props[i].name
    requires forall i :: 0 <= i < |props| && props[i].jsonName.Some? ==> '.' !in props[i].jsonName.value
    requires forall i :: 0 <= i < |props| && props[i].bindName.Some? ==> '.' !in props[i].bindName.value
    ensures ResolvedProperty(props, s) == Err(PropertyNotSupported)
  {
    forall i | 0 <= i < |props| ensures !AnswersTo(props[i], s) {
      EqualsIgnoreCaseKeepsDots(props[i].name, s);
      if props[i].jsonName.Some? {
        EqualsIgnoreCaseKeepsDots(props[i].jsonName.value, s);
      }
      if props[i].bindName.Some? {
        EqualsIgnoreCaseKeepsDots(props[i].bindName.value, s);
      }
    }
    if |Split(s)| > 0 {
      LookupNeedsTopLevelMatch(props, s, |Split(s)|);
    }
  }

  // ---------------------------------------------------------------------------------------------
  // Resolving an ordering path (the reflection walk of SortBy)

  /** Type.GetProperty(name, ...): the first property declared with exactly this name. */
  function FindDeclared(props: seq<Property>, name: string): (r: Option<nat>)
    ensures r.Some? ==> r.value < |props| && props[r.value].name == name
    ensures r.Some? ==> forall j :: 0 <= j < r.value ==> props[j].name != name
    ensures r.None? <==> forall j :: 0 <= j < |props| ==> props[j].name != name
  {
    if props == [] then None
    else if props[0].name == name then Some(0)
    else match FindDeclared(props[1..], name)
      case None => None
      case Some(i) => Some(i + 1)
  }

  /** The walk over the segments: a found segment steps into its property's type, a missing one
   *  leaves the type as it was and forgets the property found so far. */
  function Walk(props: seq<Property>, segments: seq<string>, prop: Option<Property>): Option<Property>
    decreases |segments|
  {
    if segments == [] then prop
    else match FindDeclared(props, segments[0])
      case Some(i) => Walk(props[i].members, segments[1..], Some(props[i]))
      case None => Walk(props, segments[1..], None)
  }

  /** The properties of the type the walk has reached after the given segments. */
  function Reached(props: seq<Property>, segments: seq<string>): seq<Property>
    decreases |segments|
  {
    if segments == [] then props
    else match FindDeclared(props, segments[0])
      case Some(i) => Reached(props[i].members, segments[1..])
      case None => Reached(props, segments[1..])
  }

  /** What SortBy makes of a path: an ordering step keyed on the property the walk ends on
   *  (lower-cased when that is a string), or failure. */
  function PathKey(props: seq<Property>, path: string, direction: SortDirection): Result<OrderStep, Error> {
    match Walk(props, Split(path), None)
    case None => Err(SortingNotPossible(path))
    case Some(p) => Ok(OrderStep(path, direction, p.kind == Text))
  }

  /** The reflection walk of SortBy; the operator it then invokes is AddSingleOrder. */
  method SortBy(props: seq<Property>, propName: string, direction: SortDirection) returns (r: Result<OrderStep, Error>)
    ensures r == PathKey(props, propName, direction)
  {
    var names := Split(propName);
    var prop: Option<Property> := None;
    var current := props;
    var k := 0;
    while k < |names|
      invariant 0 <= k <= |names|
      invariant Walk(props, names, None) == Walk(current, names[k..], prop)
    {
      assert names[k..][1..] == names[k + 1..];
      var i := FindDeclared(current, names[k]);
      if i.Some? {
        prop := Some(current[i.value]);
        current := current[i.value].members;
      } else {
        prop := None;
      }
      k := k + 1;
    }
    if prop.None? {
      return Err(SortingNotPossible(propName));
    }
    return Ok(OrderStep(propName, direction, prop.value.kind == Text));
  }

  /** The walk succeeds exactly when the LAST segment is a property of the type reached by the
   *  segments before it, and then ends on that property. */
  lemma {:induction false} WalkEndsOnLastSegment(props: seq<Property>, segments: seq<string>, prop: Option<Property>)
    requires segments != []
    ensures var before := Reached(props, segments[..|segments| - 1]);
            Walk(props, segments, prop) ==
              match FindDeclared(before, segments[|segments| - 1])
              case Some(i) => Some(before[i])
              case None => None
    decreases |segments|
  {
    var n := |segments|;
    if n > 1 {
      var rest := segments[1..];
      assert rest[..|rest| - 1] == segments[..n - 1][1..];
      assert rest[|rest| - 1] == segments[n - 1];
      match FindDeclared(props, segments[0])
      case Some(i) =>
        WalkEndsOnLastSegment(props[i].members, rest, Some(props[i]));
      case None =>
        WalkEndsOnLastSegment(props, rest, None);
    }
  }

  /** A path resolves exactly when its last segment is found; an empty or all-dot path fails. */
  lemma PathKeyNeedsLastSegment(props: seq<Property>, path: string, direction: SortDirection)
    ensures Split(path) == [] ==> PathKey(props, path, direction) == Err(SortingNotPossible(path))
    ensures Split(path) != [] ==>
      var segs := Split(path);
      var before := Reached(props, segs[..|segs| - 1]);
      PathKey(props, path, direction) ==
        match FindDeclared(before, segs[|segs| - 1])
        case Some(i) => Ok(OrderStep(path, direction, before[i].kind == Text))
        case None => Err(SortingNotPossible(path))
  {
    if Split(path) != [] {
      WalkEndsOnLastSegment(props, Split(path), None);
    }
  }

  /** A plain property name resolves to the property declared with it, with a lower-cased key
   *  when that property is a string. */
  lemma PathKeySimpleName(props: seq<Property>, name: string, direction: SortDirection)
    requires name != [] && '.' !in name
    ensures PathKey(props, name, direction) ==
      match FindDeclared(props, name)
      case Some(i) => Ok(OrderStep(name, direction, props[i].kind == Text))
      case None => Err(SortingNotPossible(name))
  {
    SplitDotFree(name);
    assert [name][1..] == [];
    match FindDeclared(props, name)
    case Some(i) =>
      assert Walk(props, [name], None) == Walk(props[i].members, [], Some(props[i]));
    case None =>
      assert Walk(props, [name], None) == Walk(props, [], None);
  }

  // ---------------------------------------------------------------------------------------------
  // Applying steps to a query (AddSingleOrder)

  /** An ordered query gets a tie-break (ThenBy), an unordered one a primary key (OrderBy). */
  function AddSingleOrder<T>(ty: EntityType<T>, query: Query<T>, st: OrderStep): Query<T> {
    if query.ordering.Some? then ThenBy(query, st) else OrderBy(ty, query, st)
  }

  /** The steps applied one after the other with AddSingleOrder. */
  function AddSteps<T>(ty: EntityType<T>, query: Query<T>, steps: seq<OrderStep>): Query<T>
    decreases |steps|
  {
    if steps == [] then query
    else AddSingleOrder(ty, AddSteps(ty, query, steps[..|steps| - 1]), steps[|steps| - 1])
  }

  lemma {:induction false} AddStepsAppend<T>(ty: EntityType<T>, query: Query<T>, a: seq<OrderStep>, b: seq<OrderStep>)
    ensures AddSteps(ty, query, a + b) == AddSteps(ty, AddSteps(ty, query, a), b)
    decreases |b|
  {
    if b == [] {
      assert a + b == a;
    } else {
      assert (a + b)[..|a + b| - 1] == a + b[..|b| - 1];
      assert (a + b)[|a + b| - 1] == b[|b| - 1];
      AddStepsAppend(ty, query, a, b[..|b| - 1]);
    }
  }

  /** On an unordered query the first step is the primary key and every later one a tie-break;
   *  on an already ordered query every step is a tie-break after the existing ones. */
  lemma {:induction false} AddStepsChain<T>(ty: EntityType<T>, query: Query<T>, steps: seq<OrderStep>)
    requires steps != []
    ensures AddSteps(ty, query, steps) ==
      Query(query.rows, Some(if query.ordering.Some? then query.ordering.value + steps else steps))
    decreases |steps|
  {
    var init := steps[..|steps| - 1];
    if init == [] {
      assert steps == [steps[0]];
      if query.ordering.Some? {
      } else {
        assert ToList(ty, query) == query.rows;
      }
    } else {
      AddStepsChain(ty, query, init);
      if query.ordering.Some? {
        assert query.ordering.value + init + [steps[|steps| - 1]] == query.ordering.value + steps;
      } else {
        assert init + [steps[|steps| - 1]] == steps;
      }
    }
  }

  /** A resolved plan applied to a query, or the error that stopped its resolution. */
  function AddPlan<T>(ty: EntityType<T>, query: Query<T>, plan: Result<seq<OrderStep>, Error>): Result<Query<T>, Error> {
    match plan
    case Ok(steps) => Ok(AddSteps(ty, query, steps))
    case Err(e) => Err(e)
  }

  // ---------------------------------------------------------------------------------------------
  // Collecting the steps of a sequence of items, stopping at the first failure

  function Collect<X>(xs: seq<X>, f: X -> Result<seq<OrderStep>, Error>): Result<seq<OrderStep>, Error> {
    if xs == [] then Ok([])
    else
      var a :- f(xs[0]);
      var b :- Collect(xs[1..], f);
      Ok(a + b)
  }

  /** Collecting over a concatenation: the steps of the first part, then those of the second,
   *  or the first failure met. */
  lemma {:induction false} CollectAppend<X>(xs: seq<X>, ys: seq<X>, f: X -> Result<seq<OrderStep>, Error>)
    ensures Collect(xs + ys, f) ==
      match Collect(xs, f)
      case Err(e) => Err(e)
      case Ok(a) => (match Collect(ys, f) case Err(e) => Err(e) case Ok(b) => Ok(a + b))
  {
    if xs == [] {
      assert xs + ys == ys;
      match Collect(ys, f)
      case Ok(b) => assert [] + b == b;
      case Err(_) =>
    } else {
      assert (xs + ys)[0] == xs[0];
      assert (xs + ys)[1..] == xs[1..] + ys;
      CollectAppend(xs[1..], ys, f);
      match f(xs[0])
      case Err(_) =>
      case Ok(a0) =>
        match Collect(xs[1..], f)
        case Err(_) =>
        case Ok(a1) =>
          match Collect(ys, f)
          case Err(_) =>
          case Ok(b) => assert a0 + (a1 + b) == (a0 + a1) + b;
    }
  }

  lemma CollectExtend<X>(xs: seq<X>, i: nat, f: X -> Result<seq<OrderStep>, Error>, done: seq<OrderStep>)
    requires i < |xs| && Collect(xs[..i], f) == Ok(done) && f(xs[i]).Ok?
    ensures Collect(xs[..i + 1], f) == Ok(done + f(xs[i]).value)
  {
    assert xs[..i + 1] == xs[..i] + [xs[i]];
    CollectAppend(xs[..i], [xs[i]], f);
    assert Collect([xs[i]], f) == Ok(f(xs[i]).value + []);
    assert f(xs[i]).value + [] == f(xs[i]).value;
  }

  lemma CollectStopsAt<X>(xs: seq<X>, i: nat, f: X -> Result<seq<OrderStep>, Error>)
    requires i < |xs| && Collect(xs[..i], f).Ok? && f(xs[i]).Err?
    ensures Collect(xs, f) == Err(f(xs[i]).error)
  {
    assert xs == xs[..i] + xs[i..];
    CollectAppend(xs[..i], xs[i..], f);
    assert xs[i..][0] == xs[i];
  }

  /** A successful collection is the steps of the items before k, then item k's own steps, then
   *  those of the items after it. */
  lemma CollectAround<X>(xs: seq<X>, k: nat, f: X -> Result<seq<OrderStep>, Error>)
    requires k < |xs| && Collect(xs, f).Ok?
    ensures f(xs[k]).Ok? && Collect(xs[..k], f).Ok? && Collect(xs[k + 1..], f).Ok?
    ensures Collect(xs, f).value == Collect(xs[..k], f).value + f(xs[k]).value + Collect(xs[k + 1..], f).value
  {
    assert xs == xs[..k] + ([xs[k]] + xs[k + 1..]);
    CollectAppend(xs[..k], [xs[k]] + xs[k + 1..], f);
    CollectAppend([xs[k]], xs[k + 1..], f);
    assert ([xs[k]])[1..] == [];
    if f(xs[k]).Ok? {
      assert Collect([xs[k]], f) == Ok(f(xs[k]).value + []);
      assert f(xs[k]).value + [] == f(xs[k]).value;
    }
  }

  /** Collecting fails exactly when some item fails, and then with the error of the first one. */
  lemma {:induction false} CollectFirstFailure<X>(xs: seq<X>, i: nat, f: X -> Result<seq<OrderStep>, Error>)
    requires i < |xs| && f(xs[i]).Err?
    ensures Collect(xs, f).Err?
    ensures (forall j :: 0 <= j < i ==> f(xs[j]).Ok?) ==> Collect(xs, f) == Err(f(xs[i]).error)
  {
    if i > 0 && f(xs[0]).Ok? {
      assert forall j :: 0 <= j < i - 1 ==> xs[1..][j] == xs[j + 1];
      CollectFirstFailure(xs[1..], i - 1, f);
    }
  }

  // ---------------------------------------------------------------------------------------------
  // The steps of one property (AddOrder)

  /** The Where of the source over a type's properties: the indices, from i on, of the
   *  properties that keep selects, in declaration order. */
  function Indices(props: seq<Property>, keep: Property -> bool, i: nat): (r: seq<nat>)
    ensures forall k :: 0 <= k < |r| ==> i <= r[k] < |props| && keep(props[r[k]])
    ensures forall k, l :: 0 <= k < l < |r| ==> r[k] < r[l]
    ensures forall m :: i <= m < |props| && keep(props[m]) ==> m in r
    decreases |props| - i
  {
    if i >= |props| then []
    else (if keep(props[i]) then [i] else []) + Indices(props, keep, i + 1)
  }

  lemma {:induction false} IndicesNone(props: seq<Property>, keep: Property -> bool, i: nat)
    requires forall m :: i <= m < |props| ==> !keep(props[m])
    ensures Indices(props, keep, i) == []
    decreases |props| - i
  {
    if i < |props| {
      IndicesNone(props, keep, i + 1);
    }
  }

  function HasSort(): Property -> bool {
    (p: Property) => p.sort.Some?
  }

  /** The names of the Sort-attributed properties of a nested type, prefixed with the property's
   *  own name, in declaration order (their Order values play no part). */
  function NestedPaths(name: string, members: seq<Property>): seq<string> {
    var idx := Indices(members, HasSort(), 0);
    seq(|idx|, k requires 0 <= k < |idx| => name + "." + members[idx[k]].name)
  }

  /** The names AddOrder hands to AddSingleOrder for a property: those of its [SortBy], else one
   *  per Sort-attributed sub-property when its type is a class other than string, else its own. */
  function Expansion(p: Property): seq<string> {
    if p.sortBy.Some? then p.sortBy.value
    else if p.kind == Class then NestedPaths(p.name, p.members)
    else [p.name]
  }

  function PathStepOf(props: seq<Property>, direction: SortDirection): string -> Result<seq<OrderStep>, Error> {
    (name: string) => match PathKey(props, name, direction) case Ok(st) => Ok([st]) case Err(e) => Err(e)
  }

  /** The steps AddOrder adds for a property, all in the one direction it is given. */
  function PropertySteps(props: seq<Property>, p: Property, direction: SortDirection): Result<seq<OrderStep>, Error> {
    Collect(Expansion(p), PathStepOf(props, direction))
  }

  method AddOrder<T>(ty: EntityType<T>, query: Query<T>, sortProperty: Property, direction: SortDirection)
    returns (r: Result<Query<T>, Error>)
    ensures r == AddPlan(ty, query, PropertySteps(ty.properties, sortProperty, direction))
  {
    var names: seq<string>;
    if sortProperty.sortBy.Some? {
      names := sortProperty.sortBy.value;
    } else if sortProperty.kind == Class {
      names := NestedPaths(sortProperty.name, sortProperty.members);
    } else {
      names := [sortProperty.name];
    }
    assert names == Expansion(sortProperty);
    ghost var f := PathStepOf(ty.properties, direction);
    ghost var done: seq<OrderStep> := [];
    var q := query;
    var i := 0;
    while i < |names|
      invariant 0 <= i <= |names|
      invariant Collect(names[..i], f) == Ok(done)
      invariant q == AddSteps(ty, query, done)
    {
      var st := SortBy(ty.properties, names[i], direction);
      if st.Err? {
        CollectStopsAt(names, i, f);
        return Err(st.error);
      }
      assert f(names[i]) == Ok([st.value]);
      CollectExtend(names, i, f, done);
      assert (done + [st.value])[..|done|] == done;
      q := AddSingleOrder(ty, q, st.value);
      done := done + [st.value];
      i := i + 1;
    }
    assert names[..i] == names;
    return Ok(q);
  }

  lemma {:induction false} CollectPaths(props: seq<Property>, names: seq<string>, direction: SortDirection)
    ensures Collect(names, PathStepOf(props, direction)).Ok? <==>
      forall i :: 0 <= i < |names| ==> PathKey(props, names[i], direction).Ok?
    ensures Collect(names, PathStepOf(props, direction)).Ok? ==>
      var steps := Collect(names, PathStepOf(props, direction)).value;
      |steps| == |names| &&
      forall i :: 0 <= i < |names| ==> steps[i] == PathKey(props, names[i], direction).value
  {
    if names != [] {
      CollectPaths(props, names[1..], direction);
      assert forall i :: 1 <= i < |names| ==> names[1..][i - 1] == names[i];
    }
  }

  /** One property yields one step per name of its expansion, in order, each on that name and in
   *  the property's direction; it fails exactly when one of those names does not resolve. */
  lemma PropertyStepsShape(props: seq<Property>, p: Property, direction: SortDirection)
    ensures PropertySteps(props, p, direction).Ok? <==>
      forall i :: 0 <= i < |Expansion(p)| ==> PathKey(props, Expansion(p)[i], direction).Ok?
    ensures PropertySteps(props, p, direction).Ok? ==>
      var steps := PropertySteps(props, p, direction).value;
      |steps| == |Expansion(p)| &&
      forall i :: 0 <= i < |steps| ==> steps[i].path == Expansion(p)[i] && steps[i].direction == direction
  {
    CollectPaths(props, Expansion(p), direction);
  }

  // ---------------------------------------------------------------------------------------------
  // The plan (ApplyOrdering)

  function DirectionOrAsc(d: Option<SortDirection>): SortDirection {
    if d.Some? then d.value else Asc
  }

  /** One caller directive: look the name up, refuse a [NoSort] property, expand it. */
  function DirectiveStep(props: seq<Property>, d: SortingDto): Result<seq<OrderStep>, Error> {
    var p :- ResolvedProperty(props, d.sortColumnName);
    if p.noSort then Err(SortNotAllowed(d.sortColumnName))
    else PropertySteps(props, p, DirectionOrAsc(d.sortDirection))
  }

  function DirectiveStepOf(props: seq<Property>): SortingDto -> Result<seq<OrderStep>, Error> {
    (d: SortingDto) => DirectiveStep(props, d)
  }

  function DirectiveSteps(props: seq<Property>, ds: seq<SortingDto>): Result<seq<OrderStep>, Error> {
    Collect(ds, DirectiveStepOf(props))
  }

  /** A property with the attribute that put it in a default or required list. */
  datatype Attributed = Attributed(property: Property, attr: OrderAttribute)

  function ByOrder(): (Attributed, Attributed) -> bool {
    (a: Attributed, b: Attributed) => a.attr.order <= b.attr.order
  }

  lemma ByOrderTotalPreorder()
    ensures StableSort.TotalPreorder(ByOrder())
  {
  }

  /** The [Sort]-attributed properties with their attribute, in declaration order. */
  function WithSort(props: seq<Property>): seq<Attributed> {
    var idx := Indices(props, HasSort(), 0);
    seq(|idx|, k requires 0 <= k < |idx| => Attributed(props[idx[k]], props[idx[k]].sort.value))
  }

  /** The source's filter for required sorts: the property's lower-cased name is, exactly, one of
   *  the directive column names, and it carries [RequiredSort]. */
  function IsRequiredFor(columns: seq<string>): Property -> bool {
    (p: Property) => ToLowerInvariant(p.name) in columns && p.requiredSort.Some?
  }

  /** The required properties with their attribute, in declaration order. */
  function WithRequiredSort(props: seq<Property>, columns: seq<string>): seq<Attributed> {
    var idx := Indices(props, IsRequiredFor(columns), 0);
    seq(|idx|, k requires 0 <= k < |idx| => Attributed(props[idx[k]], props[idx[k]].requiredSort.value))
  }

  function ColumnNames(ds: seq<SortingDto>): seq<string> {
    seq(|ds|, i requires 0 <= i < |ds| => ds[i].sortColumnName)
  }

  /** The default chain's properties, stably ordered by their [Sort] order. */
  function DefaultSorts(props: seq<Property>): seq<Attributed> {
    StableSort.Sort(WithSort(props), ByOrder())
  }

  /** The required sorts' properties, stably ordered by their [RequiredSort] order. */
  function RequiredSorts(props: seq<Property>, ds: seq<SortingDto>): seq<Attributed> {
    StableSort.Sort(WithRequiredSort(props, ColumnNames(ds)), ByOrder())
  }

  function AttributedStepOf(props: seq<Property>): Attributed -> Result<seq<OrderStep>, Error> {
    (a: Attributed) => PropertySteps(props, a.property, a.attr.direction)
  }

  function AttributedSteps(props: seq<Property>, list: seq<Attributed>): Result<seq<OrderStep>, Error> {
    Collect(list, AttributedStepOf(props))
  }

  /** The whole plan: the caller's directives (or, when there are none, the default chain), then
   *  the required sorts. */
  function OrderingPlan(props: seq<Property>, sorting: Option<seq<SortingDto>>): Result<seq<OrderStep>, Error> {
    if sorting.None? then Err(ArgumentNull)
    else
      var ds := sorting.value;
      var main :- if |ds| > 0 then DirectiveSteps(props, ds) else AttributedSteps(props, DefaultSorts(props));
      var required :- AttributedSteps(props, RequiredSorts(props, ds));
      Ok(main + required)
  }

  /** The ordered query ApplyOrdering returns, or the exception it throws. */
  function Ordered<T>(ty: EntityType<T>, source: Query<T>, sorting: Option<seq<SortingDto>>): Result<Query<T>, Error> {
    AddPlan(ty, source, OrderingPlan(ty.properties, sorting))
  }

  /** The foreach over the caller's directives. */
  method AddDirectives<T>(ty: EntityType<T>, source: Query<T>, ds: seq<SortingDto>) returns (r: Result<Query<T>, Error>)
    ensures r == AddPlan(ty, source, DirectiveSteps(ty.properties, ds))
  {
    ghost var f := DirectiveStepOf(ty.properties);
    ghost var done: seq<OrderStep> := [];
    var q := source;
    var i := 0;
    while i < |ds|
      invariant 0 <= i <= |ds|
      invariant Collect(ds[..i], f) == Ok(done)
      invariant q == AddSteps(ty, source, done)
    {
      var sortProperty := GetProperty(ty.properties, ds[i].sortColumnName);
      if sortProperty.Err? {
        CollectStopsAt(ds, i, f);
        return Err(sortProperty.error);
      }
      if sortProperty.value.noSort {
        CollectStopsAt(ds, i, f);
        return Err(SortNotAllowed(ds[i].sortColumnName));
      }
      var next := AddOrder(ty, q, sortProperty.value, DirectionOrAsc(ds[i].sortDirection));
      if next.Err? {
        CollectStopsAt(ds, i, f);
        return Err(next.error);
      }
      CollectExtend(ds, i, f, done);
      AddStepsAppend(ty, source, done, f(ds[i]).value);
      done := done + f(ds[i]).value;
      q := next.value;
      i := i + 1;
    }
    assert ds[..i] == ds;
    return Ok(q);
  }

  /** The foreach over a list of attributed properties, each added in its attribute's direction. */
  method AddAttributed<T>(ty: EntityType<T>, source: Query<T>, list: seq<Attributed>) returns (r: Result<Query<T>, Error>)
    ensures r == AddPlan(ty, source, AttributedSteps(ty.properties, list))
  {
    ghost var g := AttributedStepOf(ty.properties);
    ghost var done: seq<OrderStep> := [];
    var q := source;
    var i := 0;
    while i < |list|
      invariant 0 <= i <= |list|
      invariant Collect(list[..i], g) == Ok(done)
      invariant q == AddSteps(ty, source, done)
    {
      var next := AddOrder(ty, q, list[i].property, list[i].attr.direction);
      if next.Err? {
        CollectStopsAt(list, i, g);
        return Err(next.error);
      }
      CollectExtend(list, i, g, done);
      AddStepsAppend(ty, source, done, g(list[i]).value);
      done := done + g(list[i]).value;
      q := next.value;
      i := i + 1;
    }
    assert list[..i] == list;
    return Ok(q);
  }

  method ApplyOrdering<T>(ty: EntityType<T>, source: Query<T>, sorting: Option<seq<SortingDto>>)
    returns (r: Result<Query<T>, Error>)
    ensures r == Ordered(ty, source, sorting)
  {
    if sorting.None? {
      return Err(ArgumentNull);
    }
    var ds := sorting.value;
    var ordered: Result<Query<T>, Error>;
    ghost var main: Result<seq<OrderStep>, Error>;
    if |ds| > 0 {
      ordered := AddDirectives(ty, source, ds);
      main := DirectiveSteps(ty.properties, ds);
    } else {
      ordered := AddAttributed(ty, source, DefaultSorts(ty.properties));
      main := AttributedSteps(ty.properties, DefaultSorts(ty.properties));
    }
    if ordered.Err? {
      return Err(ordered.error);
    }
    r := AddAttributed(ty, ordered.value, RequiredSorts(ty.properties, ds));
    if r.Ok? {
      AddStepsAppend(ty, source, main.value, AttributedSteps(ty.properties, RequiredSorts(ty.properties, ds)).value);
    }
  }

  // ---------------------------------------------------------------------------------------------
  // Properties of the plan

  /** Every failed lookup is a NotSupportedException. */
  lemma {:induction false} LookupLevelsFailure(props: seq<Property>, s: string, k: nat)
    requires k >= 1 && LookupLevels(props, s, k).Err?
    ensures LookupLevels(props, s, k) == Err(PropertyNotSupported)
    decreases k
  {
    if k > 1 && LookupLevels(props, s, k - 1).Err? {
      LookupLevelsFailure(props, s, k - 1);
    }
  }

  lemma ResolvedPropertyFailure(props: seq<Property>, s: string)
    requires ResolvedProperty(props, s).Err?
    ensures ResolvedProperty(props, s) == Err(PropertyNotSupported)
  {
    if |Split(s)| > 0 {
      LookupLevelsFailure(props, s, |Split(s)|);
    }
  }

  /** The directives are resolved in order and the first one that fails decides the error. */
  lemma FirstFailingDirective(props: seq<Property>, ds: seq<SortingDto>, i: nat)
    requires i < |ds| && DirectiveStep(props, ds[i]).Err?
    requires forall j :: 0 <= j < i ==> DirectiveStep(props, ds[j]).Ok?
    ensures OrderingPlan(props, Some(ds)) == Err(DirectiveStep(props, ds[i]).error)
  {
    CollectFirstFailure(ds, i, DirectiveStepOf(props));
  }

  /** A directive whose column names a [NoSort] property makes ApplyOrdering throw, naming that
   *  column when the directives before it resolve. */
  lemma NoSortDirectiveFails(props: seq<Property>, ds: seq<SortingDto>, i: nat)
    requires i < |ds| && ResolvedProperty(props, ds[i].sortColumnName).Ok?
    requires ResolvedProperty(props, ds[i].sortColumnName).value.noSort
    ensures OrderingPlan(props, Some(ds)).Err?
    ensures (forall j :: 0 <= j < i ==> DirectiveStep(props, ds[j]).Ok?) ==>
      OrderingPlan(props, Some(ds)) == Err(SortNotAllowed(ds[i].sortColumnName))
  {
    CollectFirstFailure(ds, i, DirectiveStepOf(props));
  }

  /** A directive whose column no property answers to makes ApplyOrdering throw
   *  NotSupportedException when the directives before it resolve. */
  lemma UnknownColumnFails(props: seq<Property>, ds: seq<SortingDto>, i: nat)
    requires i < |ds| && ResolvedProperty(props, ds[i].sortColumnName).Err?
    ensures OrderingPlan(props, Some(ds)).Err?
    ensures (forall j :: 0 <= j < i ==> DirectiveStep(props, ds[j]).Ok?) ==>
      OrderingPlan(props, Some(ds)) == Err(PropertyNotSupported)
  {
    ResolvedPropertyFailure(props, ds[i].sortColumnName);
    CollectFirstFailure(ds, i, DirectiveStepOf(props));
  }

  /** A resolved directive sorts on the expansion of the property its column names, every step
   *  in the directive's direction, ascending when it gives none. */
  lemma DirectiveStepShape(props: seq<Property>, d: SortingDto)
    requires DirectiveStep(props, d).Ok?
    ensures ResolvedProperty(props, d.sortColumnName).Ok? && !ResolvedProperty(props, d.sortColumnName).value.noSort
    ensures var p := ResolvedProperty(props, d.sortColumnName).value;
            var steps := DirectiveStep(props, d).value;
            |steps| == |Expansion(p)| &&
            forall i :: 0 <= i < |steps| ==>
              steps[i].path == Expansion(p)[i] && steps[i].direction == DirectionOrAsc(d.sortDirection)
  {
    PropertyStepsShape(props, ResolvedProperty(props, d.sortColumnName).value, DirectionOrAsc(d.sortDirection));
  }

  /** A required sort applies only to a property some directive names. */
  lemma NothingRequiredWithoutDirectives(props: seq<Property>)
    ensures RequiredSorts(props, []) == []
  {
    var keep := IsRequiredFor(ColumnNames([]));
    assert ColumnNames([]) == [];
    assert forall m :: 0 <= m < |props| ==> !keep(props[m]);
    IndicesNone(props, keep, 0);
  }

  /** A type without [RequiredSort] properties never gets a required sort. */
  lemma NoRequiredSortProperties(props: seq<Property>, ds: seq<SortingDto>)
    requires forall i :: 0 <= i < |props| ==> props[i].requiredSort.None?
    ensures RequiredSorts(props, ds) == []
  {
    var keep := IsRequiredFor(ColumnNames(ds));
    assert forall m :: 0 <= m < |props| ==> !keep(props[m]);
    IndicesNone(props, keep, 0);
  }

  /** When no required sort applies, the plan for some directives is theirs alone. */
  lemma PlanWithoutRequiredSorts(props: seq<Property>, ds: seq<SortingDto>)
    requires |ds| > 0 && RequiredSorts(props, ds) == []
    ensures OrderingPlan(props, Some(ds)) == DirectiveSteps(props, ds)
  {
    assert AttributedSteps(props, []) == Ok([]);
    match DirectiveSteps(props, ds)
    case Ok(main) => assert main + [] == main;
    case Err(_) =>
  }

  /** With no directives the plan is the default chain alone. */
  lemma NoDirectivesUseDefaults(props: seq<Property>)
    ensures OrderingPlan(props, Some([])) == AttributedSteps(props, DefaultSorts(props))
  {
    NothingRequiredWithoutDirectives(props);
    assert AttributedSteps(props, RequiredSorts(props, [])) == Ok([]);
    match AttributedSteps(props, DefaultSorts(props))
    case Ok(main) => assert main + [] == main;
    case Err(_) =>
  }

  /** Attributed properties are ordered by their Order value, stably: the same properties, in
   *  ascending Order, those with equal Order in the order they came in. */
  lemma ByOrderSort(list: seq<Attributed>)
    ensures multiset(StableSort.Sort(list, ByOrder())) == multiset(list)
    ensures forall i, j :: 0 <= i < j < |StableSort.Sort(list, ByOrder())| ==>
      StableSort.Sort(list, ByOrder())[i].attr.order <= StableSort.Sort(list, ByOrder())[j].attr.order
    ensures forall y :: StableSort.Ties(StableSort.Sort(list, ByOrder()), y, ByOrder()) == StableSort.Ties(list, y, ByOrder())
  {
    ByOrderTotalPreorder();
    StableSort.SortPermutation(list, ByOrder());
    StableSort.SortSorted(list, ByOrder());
    forall y ensures StableSort.Ties(StableSort.Sort(list, ByOrder()), y, ByOrder()) == StableSort.Ties(list, y, ByOrder()) {
      StableSort.SortStable(list, y, ByOrder());
    }
  }

  lemma WithSortMembers(props: seq<Property>)
    ensures forall a :: a in WithSort(props) <==>
      exists i :: 0 <= i < |props| && props[i].sort.Some? && a == Attributed(props[i], props[i].sort.value)
  {
    var idx := Indices(props, HasSort(), 0);
    forall a | a in WithSort(props)
      ensures exists i :: 0 <= i < |props| && props[i].sort.Some? && a == Attributed(props[i], props[i].sort.value)
    {
      var k :| 0 <= k < |idx| && WithSort(props)[k] == a;
      assert props[idx[k]].sort.Some?;
    }
    forall i | 0 <= i < |props| && props[i].sort.Some? ensures Attributed(props[i], props[i].sort.value) in WithSort(props) {
      assert HasSort()(props[i]);
      var k :| 0 <= k < |idx| && idx[k] == i;
      assert WithSort(props)[k] == Attributed(props[i], props[i].sort.value);
    }
  }

  /** The default chain: every [Sort]-attributed property once, ascending by Order, ties kept in
   *  declaration order. */
  lemma DefaultSortsSpec(props: seq<Property>)
    ensures forall a :: a in DefaultSorts(props) <==>
      exists i :: 0 <= i < |props| && props[i].sort.Some? && a == Attributed(props[i], props[i].sort.value)
    ensures multiset(DefaultSorts(props)) == multiset(WithSort(props))
    ensures forall i, j :: 0 <= i < j < |DefaultSorts(props)| ==> DefaultSorts(props)[i].attr.order <= DefaultSorts(props)[j].attr.order
    ensures forall y :: StableSort.Ties(DefaultSorts(props), y, ByOrder()) == StableSort.Ties(WithSort(props), y, ByOrder())
  {
    ByOrderSort(WithSort(props));
    WithSortMembers(props);
    forall a ensures a in DefaultSorts(props) <==> a in WithSort(props) {
      assert a in DefaultSorts(props) <==> a in multiset(DefaultSorts(props));
    }
  }

  lemma WithRequiredSortMembers(props: seq<Property>, columns: seq<string>)
    ensures forall a :: a in WithRequiredSort(props, columns) <==>
      exists i :: 0 <= i < |props| && props[i].requiredSort.Some? && ToLowerInvariant(props[i].name) in columns &&
        a == Attributed(props[i], props[i].requiredSort.value)
  {
    var idx := Indices(props, IsRequiredFor(columns), 0);
    forall a | a in WithRequiredSort(props, columns)
      ensures exists i :: 0 <= i < |props| && props[i].requiredSort.Some? &&
                ToLowerInvariant(props[i].name) in columns && a == Attributed(props[i], props[i].requiredSort.value)
    {
      var k :| 0 <= k < |idx| && WithRequiredSort(props, columns)[k] == a;
      assert IsRequiredFor(columns)(props[idx[k]]);
    }
    forall i | 0 <= i < |props| && props[i].requiredSort.Some? && ToLowerInvariant(props[i].name) in columns
      ensures Attributed(props[i], props[i].requiredSort.value) in WithRequiredSort(props, columns)
    {
      assert IsRequiredFor(columns)(props[i]);
      var k :| 0 <= k < |idx| && idx[k] == i;
      assert WithRequiredSort(props, columns)[k] == Attributed(props[i], props[i].requiredSort.value);
    }
  }

  /** The required sorts: every [RequiredSort]-attributed property whose lower-cased name is one
   *  of the directive columns (compared exactly), once, ascending by Order, ties kept in
   *  declaration order. */
  lemma RequiredSortsSpec(props: seq<Property>, ds: seq<SortingDto>)
    ensures forall a :: a in RequiredSorts(props, ds) <==>
      exists i :: 0 <= i < |props| && props[i].requiredSort.Some? && ToLowerInvariant(props[i].name) in ColumnNames(ds) &&
        a == Attributed(props[i], props[i].requiredSort.value)
    ensures multiset(RequiredSorts(props, ds)) == multiset(WithRequiredSort(props, ColumnNames(ds)))
    ensures forall i, j :: 0 <= i < j < |RequiredSorts(props, ds)| ==>
      RequiredSorts(props, ds)[i].attr.order <= RequiredSorts(props, ds)[j].attr.order
    ensures forall y ::
      StableSort.Ties(RequiredSorts(props, ds), y, ByOrder()) == StableSort.Ties(WithRequiredSort(props, ColumnNames(ds)), y, ByOrder())
  {
    var list := WithRequiredSort(props, ColumnNames(ds));
    ByOrderSort(list);
    WithRequiredSortMembers(props, ColumnNames(ds));
    forall a ensures a in RequiredSorts(props, ds) <==> a in list {
      assert a in RequiredSorts(props, ds) <==> a in multiset(RequiredSorts(props, ds));
    }
  }

  /** x occurs in s as one contiguous run. */
  ghost predicate Contains(s: seq<OrderStep>, x: seq<OrderStep>) {
    exists a, b :: s == a + x + b
  }

  lemma ContainsMiddle(a: seq<OrderStep>, x: seq<OrderStep>, b: seq<OrderStep>)
    ensures Contains(a + x + b, x)
  {
  }

  /** A [RequiredSort] property that a directive names by its exact lower-cased name, when that
   *  name also resolves to the property, is sorted twice: within the directives' steps in the
   *  directive's direction, and again among the required steps at the tail in the attribute's
   *  direction. */
  lemma RequiredPropertySortedTwice(props: seq<Property>, ds: seq<SortingDto>, i: nat, j: nat)
    requires i < |props| && j < |ds|
    requires OrderingPlan(props, Some(ds)).Ok?
    requires ResolvedProperty(props, ds[j].sortColumnName) == Ok(props[i])
    requires ToLowerInvariant(props[i].name) == ds[j].sortColumnName && props[i].requiredSort.Some?
    ensures DirectiveSteps(props, ds).Ok? && AttributedSteps(props, RequiredSorts(props, ds)).Ok?
    ensures PropertySteps(props, props[i], DirectionOrAsc(ds[j].sortDirection)).Ok?
    ensures PropertySteps(props, props[i], props[i].requiredSort.value.direction).Ok?
    ensures var main := DirectiveSteps(props, ds).value;
            var required := AttributedSteps(props, RequiredSorts(props, ds)).value;
            OrderingPlan(props, Some(ds)) == Ok(main + required) &&
            Contains(main, PropertySteps(props, props[i], DirectionOrAsc(ds[j].sortDirection)).value) &&
            Contains(required, PropertySteps(props, props[i], props[i].requiredSort.value.direction).value)
  {
    var f := DirectiveStepOf(props);
    CollectAround(ds, j, f);
    assert f(ds[j]) == PropertySteps(props, props[i], DirectionOrAsc(ds[j].sortDirection));
    ContainsMiddle(Collect(ds[..j], f).value, f(ds[j]).value, Collect(ds[j + 1..], f).value);

    var list := RequiredSorts(props, ds);
    var a := Attributed(props[i], props[i].requiredSort.value);
    assert ColumnNames(ds)[j] == ds[j].sortColumnName;
    RequiredSortsSpec(props, ds);
    assert a in list;
    var k :| 0 <= k < |list| && list[k] == a;
    var g := AttributedStepOf(props);
    CollectAround(list, k, g);
    assert g(list[k]) == PropertySteps(props, props[i], props[i].requiredSort.value.direction);
    ContainsMiddle(Collect(list[..k], g).value, g(list[k]).value, Collect(list[k + 1..], g).value);
  }

  /** ApplyOrdering keeps the rows and orders them by the source's own chain (when it has one)
   *  followed by the plan: the list it yields is a permutation of the rows, sorted by that chain. */
  lemma OrderedQuerySpec<T(!new)>(ty: EntityType<T>, source: Query<T>, sorting: Option<seq<SortingDto>>)
    requires Ordered(ty, source, sorting).Ok?
    ensures OrderingPlan(ty.properties, sorting).Ok?
    ensures var plan := OrderingPlan(ty.properties, sorting).value;
            var q := Ordered(ty, source, sorting).value;
            q.rows == source.rows &&
            (plan == [] ==> q == source) &&
            (plan != [] ==> q.ordering == Some(if source.ordering.Some? then source.ordering.value + plan else plan))
    ensures var q := Ordered(ty, source, sorting).value;
            multiset(ToList(ty, q)) == multiset(source.rows) &&
            (q.ordering.Some? ==> StableSort.SortedBy(ToList(ty, q), ChainLe(ty, q.ordering.value)))
  {
    var plan := OrderingPlan(ty.properties, sorting).value;
    if plan != [] {
      AddStepsChain(ty, source, plan);
    }
    ToListSpec(ty, Ordered(ty, source, sorting).value);
  }
}
