/**
 * The part of LINQ the core composes: an IQueryable is its rows plus, when its expression has
 * type IOrderedQueryable (the last operator was an OrderBy or ThenBy), the chain of ordering
 * steps since the last OrderBy. Materialising it sorts the rows stably by that chain, compared
 * lexicographically: the first step is the primary key, each later one breaks ties.
 */
module Queryable {
  import opened Wrappers
  import opened Text
  import opened Dtos
  import opened Attributes
  import StableSort

  /** A sort key read from a row: a string, or any other comparable value as an integer. */
  datatype Value = Num(n: int) | Str(s: string)

  /** One resolved ordering step: the path given to OrderBy/ThenBy, its direction, and whether
   *  the property it ends on is a string (whose key is then lower-cased). */
  datatype OrderStep = OrderStep(path: string, direction: SortDirection, text: bool)

  /**
   * What the model knows of a record type T: its property table, how a row yields its key for a
   * path (the expression tree SortBy builds), and the culture's string.ToLower.
   */
  datatype EntityType<!T> = EntityType(properties: seq<Property>, read: (T, string) -> Value, toLower: string -> string)

  datatype Query<T> = Query(rows: seq<T>, ordering: Option<seq<OrderStep>>)

  function CompareValues(a: Value, b: Value): (c: int)
    ensures -1 <= c <= 1
  {
    match (a, b)
    case (Num(x), Num(y)) => if x < y then -1 else if x > y then 1 else 0
    case (Str(x), Str(y)) => CompareOrdinal(x, y)
    case (Num(_), Str(_)) => -1
    case (Str(_), Num(_)) => 1
  }

  lemma CompareValuesFacts(a: Value, b: Value, c: Value)
    ensures CompareValues(a, b) == -CompareValues(b, a)
    ensures CompareValues(a, b) == 0 <==> a == b
    ensures CompareValues(a, b) < 0 && CompareValues(b, c) < 0 ==> CompareValues(a, c) < 0
  {
    if a.Str? && b.Str? {
      CompareOrdinalAntisymmetric(a.s, b.s);
      CompareOrdinalZero(a.s, b.s);
      if c.Str? && CompareValues(a, b) < 0 && CompareValues(b, c) < 0 {
        CompareOrdinalTransitive(a.s, b.s, c.s);
      }
    }
  }

  /** The key a step compares: the value read at its path, lower-cased when it is a string. */
  function KeyOf<T>(ty: EntityType<T>, st: OrderStep, x: T): Value {
    var v := ty.read(x, st.path);
    if st.text && v.Str? then Str(ty.toLower(v.s)) else v
  }

  function CompareStep<T>(ty: EntityType<T>, st: OrderStep, x: T, y: T): int {
    var c := CompareValues(KeyOf(ty, st, x), KeyOf(ty, st, y));
    if st.direction == Desc then -c else c
  }

  /** The lexicographic comparison of a chain: the first step that tells x and y apart decides. */
  function CompareChain<T>(ty: EntityType<T>, chain: seq<OrderStep>, x: T, y: T): int {
    if chain == [] then 0
    else
      var c := CompareStep(ty, chain[0], x, y);
      if c != 0 then c else CompareChain(ty, chain[1..], x, y)
  }

  function ChainLe<T>(ty: EntityType<T>, chain: seq<OrderStep>): (T, T) -> bool {
    (x: T, y: T) => CompareChain(ty, chain, x, y) <= 0
  }

  lemma StepFacts<T>(ty: EntityType<T>, st: OrderStep, x: T, y: T, z: T)
    ensures CompareStep(ty, st, x, y) == -CompareStep(ty, st, y, x)
    ensures CompareStep(ty, st, x, y) == 0 ==> CompareStep(ty, st, x, z) == CompareStep(ty, st, y, z)
    ensures CompareStep(ty, st, x, y) < 0 && CompareStep(ty, st, y, z) < 0 ==> CompareStep(ty, st, x, z) < 0
  {
    var a, b, c := KeyOf(ty, st, x), KeyOf(ty, st, y), KeyOf(ty, st, z);
    CompareValuesFacts(a, b, c);
    CompareValuesFacts(c, b, a);
    CompareValuesFacts(a, c, b);
  }

  lemma {:induction false} ChainAntisymmetric<T>(ty: EntityType<T>, chain: seq<OrderStep>, x: T, y: T)
    ensures CompareChain(ty, chain, x, y) == -CompareChain(ty, chain, y, x)
  {
    if chain != [] {
      StepFacts(ty, chain[0], x, y, x);
      ChainAntisymmetric(ty, chain[1..], x, y);
    }
  }

  lemma {:induction false} ChainTransitive<T>(ty: EntityType<T>, chain: seq<OrderStep>, x: T, y: T, z: T)
    requires CompareChain(ty, chain, x, y) <= 0 && CompareChain(ty, chain, y, z) <= 0
    ensures CompareChain(ty, chain, x, z) <= 0
  {
    if chain != [] {
      var st := chain[0];
      StepFacts(ty, st, x, y, z);
      StepFacts(ty, st, y, z, x);
      StepFacts(ty, st, z, y, x);
      StepFacts(ty, st, x, z, y);
      if CompareStep(ty, st, x, y) == 0 && CompareStep(ty, st, y, z) == 0 {
        ChainTransitive(ty, chain[1..], x, y, z);
      }
    }
  }

  /** Every chain of steps, however long, is a total preorder on rows. */
  lemma ChainTotalPreorder<T(!new)>(ty: EntityType<T>, chain: seq<OrderStep>)
    ensures StableSort.TotalPreorder(ChainLe(ty, chain))
  {
    var le := ChainLe(ty, chain);
    forall x, y ensures le(x, y) || le(y, x) {
      ChainAntisymmetric(ty, chain, x, y);
    }
    forall x, y, z | le(x, y) && le(y, z) ensures le(x, z) {
      ChainTransitive(ty, chain, x, y, z);
    }
  }

  /** ToList / ToListAsync: the rows, sorted stably by the ordering chain when there is one. */
  function ToList<T>(ty: EntityType<T>, q: Query<T>): seq<T> {
    match q.ordering
    case None => q.rows
    case Some(chain) => StableSort.Sort(q.rows, ChainLe(ty, chain))
  }

  /** Materialising only reorders rows, and orders them by the chain, stably. */
  lemma ToListSpec<T(!new)>(ty: EntityType<T>, q: Query<T>)
    ensures multiset(ToList(ty, q)) == multiset(q.rows) && |ToList(ty, q)| == |q.rows|
    ensures q.ordering.Some? ==> StableSort.SortedBy(ToList(ty, q), ChainLe(ty, q.ordering.value))
    ensures q.ordering.Some? ==> forall y :: StableSort.Ties(ToList(ty, q), y, ChainLe(ty, q.ordering.value)) == StableSort.Ties(q.rows, y, ChainLe(ty, q.ordering.value))
  {
    if q.ordering.Some? {
      var le := ChainLe(ty, q.ordering.value);
      StableSort.SortPermutation(q.rows, le);
      ChainTotalPreorder(ty, q.ordering.value);
      StableSort.SortSorted(q.rows, le);
      forall y ensures StableSort.Ties(ToList(ty, q), y, le) == StableSort.Ties(q.rows, y, le) {
        StableSort.SortStable(q.rows, y, le);
      }
    }
    assert |multiset(ToList(ty, q))| == |multiset(q.rows)|;
  }

  /** Queryable.OrderBy / OrderByDescending: a fresh primary key over the current results. */
  function OrderBy<T>(ty: EntityType<T>, q: Query<T>, st: OrderStep): Query<T> {
    Query(ToList(ty, q), Some([st]))
  }

  /** Queryable.ThenBy / ThenByDescending: one more tie-break on an ordered query. */
  function ThenBy<T>(q: Query<T>, st: OrderStep): Query<T>
    requires q.ordering.Some?
  {
    Query(q.rows, Some(q.ordering.value + [st]))
  }

  /** Enumerable/Queryable.Skip: a count of zero or less skips nothing. */
  function Skip<T>(s: seq<T>, n: int): seq<T> {
    if n <= 0 then s else if n >= |s| then [] else s[n..]
  }

  /** Enumerable/Queryable.Take: a count of zero or less takes nothing. */
  function Take<T>(s: seq<T>, n: int): seq<T> {
    if n <= 0 then [] else if n >= |s| then s else s[..n]
  }

  /** Where a count lands in s: below zero counts as zero, beyond the end as the end. */
  function Clamp(n: int, len: nat): (r: nat)
    ensures r <= len
  {
    if n <= 0 then 0 else if n >= len then len else n
  }

  /** Skip then Take cuts one contiguous run out of s. */
  lemma SkipTakeWindow<T>(s: seq<T>, skip: int, take: int)
    ensures var lo := Clamp(skip, |s|);
            Take(Skip(s, skip), take) == s[lo..lo + Clamp(take, |s| - lo)]
  {
  }

  /** Skip and Take applied to a query: the result is no longer ordered. */
  function SkipTake<T>(ty: EntityType<T>, q: Query<T>, skip: int, take: int): Query<T> {
    Query(Take(Skip(ToList(ty, q), skip), take), None)
  }

  /** Queryable.Select: maps the results, which are no longer ordered. */
  function Select<T, U>(ty: EntityType<T>, q: Query<T>, f: T -> U): Query<U> {
    var rows := ToList(ty, q);
    Query(seq(|rows|, i requires 0 <= i < |rows| => f(rows[i])), None)
  }

  /** CountAsync. */
  function Count<T>(q: Query<T>): nat {
    |q.rows|
  }
}
