/**
 * The stable sort that LINQ's OrderBy/ThenBy (and OrderByDescending/ThenByDescending) perform:
 * elements are ordered by a total preorder `le`, and elements that `le` ranks equal keep the
 * relative order they had in the input. Modelled as an insertion sort.
 */
module StableSort {

  /** `le` is total and transitive: a comparison key that ranks every pair of elements. */
  ghost predicate TotalPreorder<T(!new)>(le: (T, T) -> bool) {
    && (forall x, y :: le(x, y) || le(y, x))
    && (forall x, y, z :: le(x, y) && le(y, z) ==> le(x, z))
  }

  ghost predicate SortedBy<T>(s: seq<T>, le: (T, T) -> bool) {
    forall i, j :: 0 <= i < j < |s| ==> le(s[i], s[j])
  }

  /** Places x before the first element it does not rank after. */
  function Insert<T>(x: T, s: seq<T>, le: (T, T) -> bool): seq<T> {
    if s == [] then [x]
    else if le(x, s[0]) then [x] + s
    else [s[0]] + Insert(x, s[1..], le)
  }

  function Sort<T>(s: seq<T>, le: (T, T) -> bool): seq<T> {
    if s == [] then [] else Insert(s[0], Sort(s[1..], le), le)
  }

  /** The elements of s that `le` ranks equal to y, in the order s has them. */
  function Ties<T>(s: seq<T>, y: T, le: (T, T) -> bool): seq<T> {
    if s == [] then []
    else (if le(s[0], y) && le(y, s[0]) then [s[0]] else []) + Ties(s[1..], y, le)
  }

  function Reverse<T>(s: seq<T>): seq<T> {
    if s == [] then [] else Reverse(s[1..]) + [s[0]]
  }

  lemma {:induction false} InsertPermutation<T>(x: T, s: seq<T>, le: (T, T) -> bool)
    ensures multiset(Insert(x, s, le)) == multiset(s) + multiset{x}
  {
    if s != [] && !le(x, s[0]) {
      InsertPermutation(x, s[1..], le);
      assert s == [s[0]] + s[1..];
    }
  }

  /** Sorting only reorders: the result is a permutation of the input. */
  lemma {:induction false} SortPermutation<T>(s: seq<T>, le: (T, T) -> bool)
    ensures multiset(Sort(s, le)) == multiset(s)
  {
    if s != [] {
      SortPermutation(s[1..], le);
      InsertPermutation(s[0], Sort(s[1..], le), le);
      assert s == [s[0]] + s[1..];
    }
  }

  lemma PrependSorted<T>(x: T, s: seq<T>, le: (T, T) -> bool)
    requires SortedBy(s, le) && forall e :: e in s ==> le(x, e)
    ensures SortedBy([x] + s, le)
  {
    var r := [x] + s;
    forall i, j | 0 <= i < j < |r| ensures le(r[i], r[j]) {
      if i == 0 {
        assert r[j] == s[j - 1] && s[j - 1] in s;
      } else {
        assert r[i] == s[i - 1] && r[j] == s[j - 1];
      }
    }
  }

  lemma {:induction false} InsertSorted<T(!new)>(x: T, s: seq<T>, le: (T, T) -> bool)
    requires TotalPreorder(le) && SortedBy(s, le)
    ensures SortedBy(Insert(x, s, le), le)
  {
    if s == [] {
    } else if le(x, s[0]) {
      forall e | e in s ensures le(x, e) {
        var k :| 0 <= k < |s| && s[k] == e;
        var s0 := s[0];
        if k > 0 {
          assert le(s0, e);
          assert le(x, s0) && le(s0, e) ==> le(x, e);
        }
      }
      PrependSorted(x, s, le);
    } else {
      var t := Insert(x, s[1..], le);
      InsertSorted(x, s[1..], le);
      InsertPermutation(x, s[1..], le);
      forall e | e in t ensures le(s[0], e) {
        assert e in multiset(t);
        if e == x {
          assert le(x, s[0]) || le(s[0], x);
        } else {
          assert e in multiset(s[1..]);
          var k :| 0 <= k < |s[1..]| && s[1..][k] == e;
          assert s[k + 1] == e;
        }
      }
      assert SortedBy(s[1..], le) by {
        forall i, j | 0 <= i < j < |s[1..]| ensures le(s[1..][i], s[1..][j]) {
          assert s[1..][i] == s[i + 1] && s[1..][j] == s[j + 1];
        }
      }
      PrependSorted(s[0], t, le);
    }
  }

  /** Under a total preorder the result is ordered by it. */
  lemma {:induction false} SortSorted<T(!new)>(s: seq<T>, le: (T, T) -> bool)
    requires TotalPreorder(le)
    ensures SortedBy(Sort(s, le), le)
  {
    if s != [] {
      SortSorted(s[1..], le);
      InsertSorted(s[0], Sort(s[1..], le), le);
    }
  }

  /** Ties of a sequence with a known first element. */
  lemma TiesCons<T>(a: T, u: seq<T>, y: T, le: (T, T) -> bool)
    ensures Ties([a] + u, y, le) == (if le(a, y) && le(y, a) then [a] else []) + Ties(u, y, le)
  {
    assert ([a] + u)[0] == a && ([a] + u)[1..] == u;
  }

  lemma {:induction false} InsertTies<T(!new)>(x: T, s: seq<T>, y: T, le: (T, T) -> bool)
    requires TotalPreorder(le)
    ensures Ties(Insert(x, s, le), y, le) == (if le(x, y) && le(y, x) then [x] else []) + Ties(s, y, le)
  {
    if s == [] {
    } else if le(x, s[0]) {
      TiesCons(x, s, y, le);
    } else {
      var s0 := s[0];
      var u := Insert(x, s[1..], le);
      InsertTies(x, s[1..], y, le);
      TiesCons(s0, u, y, le);
      assert s == [s0] + s[1..];
      TiesCons(s0, s[1..], y, le);
      var tx := if le(x, y) && le(y, x) then [x] else [];
      var t0 := if le(s0, y) && le(y, s0) then [s0] else [];
      // x and s[0] cannot both tie with y, since x does not rank before s[0]
      assert le(x, y) && le(y, s0) ==> le(x, s0);
      assert tx == [] || t0 == [];
      assert t0 + (tx + Ties(s[1..], y, le)) == tx + (t0 + Ties(s[1..], y, le));
    }
  }

  /** Stability: among elements ranked equal, the input order survives. */
  lemma {:induction false} SortStable<T(!new)>(s: seq<T>, y: T, le: (T, T) -> bool)
    requires TotalPreorder(le)
    ensures Ties(Sort(s, le), y, le) == Ties(s, y, le)
  {
    if s != [] {
      SortStable(s[1..], y, le);
      InsertTies(s[0], Sort(s[1..], le), y, le);
    }
  }

  /** An input already in order comes back unchanged. */
  lemma {:induction false} SortOfSorted<T>(s: seq<T>, le: (T, T) -> bool)
    requires SortedBy(s, le)
    ensures Sort(s, le) == s
  {
    if s != [] {
      assert SortedBy(s[1..], le) by {
        forall i, j | 0 <= i < j < |s[1..]| ensures le(s[1..][i], s[1..][j]) {
          assert s[1..][i] == s[i + 1] && s[1..][j] == s[j + 1];
        }
      }
      SortOfSorted(s[1..], le);
      if |s| > 1 {
        assert le(s[0], s[1]);
      }
      assert s == [s[0]] + s[1..];
    }
  }

  lemma {:induction false} ReverseElements<T>(s: seq<T>)
    ensures multiset(Reverse(s)) == multiset(s)
  {
    if s != [] {
      ReverseElements(s[1..]);
      assert s == [s[0]] + s[1..];
    }
  }

  lemma {:induction false} InsertAtEnd<T>(x: T, s: seq<T>, le: (T, T) -> bool)
    requires forall e :: e in s ==> !le(x, e)
    ensures Insert(x, s, le) == s + [x]
  {
    if s != [] {
      assert s[0] in s;
      InsertAtEnd(x, s[1..], le);
      assert s == [s[0]] + s[1..];
    }
  }

  /** An input in strictly the opposite order comes back reversed. */
  lemma {:induction false} SortOfStrictlyDescending<T>(s: seq<T>, le: (T, T) -> bool)
    requires forall i, j :: 0 <= i < j < |s| ==> !le(s[i], s[j])
    ensures Sort(s, le) == Reverse(s)
  {
    if s != [] {
      assert forall i, j :: 0 <= i < j < |s[1..]| ==> !le(s[1..][i], s[1..][j]) by {
        forall i, j | 0 <= i < j < |s[1..]| ensures !le(s[1..][i], s[1..][j]) {
          assert s[1..][i] == s[i + 1] && s[1..][j] == s[j + 1];
        }
      }
      SortOfStrictlyDescending(s[1..], le);
      ReverseElements(s[1..]);
      forall e | e in Reverse(s[1..]) ensures !le(s[0], e) {
        assert e in multiset(s[1..]);
        var k :| 0 <= k < |s[1..]| && s[1..][k] == e;
        assert s[k + 1] == e;
      }
      InsertAtEnd(s[0], Reverse(s[1..]), le);
    }
  }
}
