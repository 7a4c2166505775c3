/** Python's `sorted`: a stable sort under a key comparison. `le(a, b)` says that
    `a` may stand before `b`; it is a total preorder (elements with equal keys are
    "ties"). Python keeps ties in input order, also with `reverse=True`, so a
    descending sort is the same stable sort under the reversed comparison. */
module Sorting {
  import Sequences

  ghost predicate TotalPreorder<T(!new)>(le: (T, T) -> bool) {
    && (forall a, b :: le(a, b) || le(b, a))
    && (forall a, b, c :: le(a, b) && le(b, c) ==> le(a, c))
  }

  predicate Sorted<T>(s: seq<T>, le: (T, T) -> bool) {
    forall i, j :: 0 <= i < j < |s| ==> le(s[i], s[j])
  }

  predicate Tie<T>(a: T, b: T, le: (T, T) -> bool) {
    le(a, b) && le(b, a)
  }

  /** The elements of `s` that tie with `z`, in the order of `s`. */
  function Ties<T>(s: seq<T>, z: T, le: (T, T) -> bool): seq<T> {
    if s == [] then []
    else (if Tie(s[0], z, le) then [s[0]] else []) + Ties(s[1..], z, le)
  }

  /** Puts `x` in front of the first element it may stand before. */
  function Insert<T>(x: T, s: seq<T>, le: (T, T) -> bool): seq<T> {
    if s == [] || le(x, s[0]) then [x] + s else [s[0]] + Insert(x, s[1..], le)
  }

  /** Stable insertion sort: `s[0]` goes in front of every element of the rest that it ties with. */
  function SortBy<T>(s: seq<T>, le: (T, T) -> bool): seq<T> {
    if s == [] then [] else Insert(s[0], SortBy(s[1..], le), le)
  }

  lemma {:induction false} InsertPermutes<T>(x: T, s: seq<T>, le: (T, T) -> bool)
    ensures multiset(Insert(x, s, le)) == multiset(s) + multiset{x}
  {
    if s != [] && !le(x, s[0]) {
      InsertPermutes(x, s[1..], le);
      assert Insert(x, s, le) == [s[0]] + Insert(x, s[1..], le);
      assert s == [s[0]] + s[1..];
      assert multiset(s) == multiset{s[0]} + multiset(s[1..]);
    }
  }

  lemma {:induction false} InsertKeepsSorted<T(!new)>(x: T, s: seq<T>, le: (T, T) -> bool)
    requires TotalPreorder(le) && Sorted(s, le)
    ensures Sorted(Insert(x, s, le), le)
  {
    if s != [] && !le(x, s[0]) {
      InsertKeepsSorted(x, s[1..], le);
      InsertPermutes(x, s[1..], le);
      var t := Insert(x, s[1..], le);
      forall j | 0 <= j < |t| ensures le(s[0], t[j]) {
        assert t[j] in multiset(s[1..]) + multiset{x};
        if t[j] != x {
          assert t[j] in s[1..];
        }
      }
    }
  }

  lemma {:induction false} InsertTies<T(!new)>(x: T, s: seq<T>, z: T, le: (T, T) -> bool)
    requires TotalPreorder(le)
    ensures Ties(Insert(x, s, le), z, le) ==
      (if Tie(x, z, le) then [x] else []) + Ties(s, z, le)
  {
    if s == [] || le(x, s[0]) {
      assert ([x] + s)[1..] == s;
    } else {
      InsertTies(x, s[1..], z, le);
      if Tie(x, z, le) {
        PassedOverDoesNotTie(x, s[0], z, le);
      }
      InsertTiesStep(x, s, z, le);
    }
  }

  /** An element that `x` may not stand before does not tie with anything `x` ties with. */
  lemma PassedOverDoesNotTie<T(!new)>(x: T, y: T, z: T, le: (T, T) -> bool)
    requires TotalPreorder(le)
    requires Tie(x, z, le) && !le(x, y)
    ensures !Tie(y, z, le)
  {
  }

  /** The step of `InsertTies` where `x` passes over `s[0]`. */
  lemma InsertTiesStep<T>(x: T, s: seq<T>, z: T, le: (T, T) -> bool)
    requires s != [] && !le(x, s[0])
    requires Tie(x, z, le) ==> !Tie(s[0], z, le)
    requires Ties(Insert(x, s[1..], le), z, le) ==
      (if Tie(x, z, le) then [x] else []) + Ties(s[1..], z, le)
    ensures Ties(Insert(x, s, le), z, le) ==
      (if Tie(x, z, le) then [x] else []) + Ties(s, z, le)
  {
    var t := Insert(x, s[1..], le);
    var head := if Tie(s[0], z, le) then [s[0]] else [];
    var mine := if Tie(x, z, le) then [x] else [];
    assert Insert(x, s, le) == [s[0]] + t;
    TiesCons(s[0], t, z, le);
    TiesCons(s[0], s[1..], z, le);
    assert s == [s[0]] + s[1..];
    assert head == [] || mine == [];
    Sequences.AppendAssoc(head, mine, Ties(s[1..], z, le));
    Sequences.AppendAssoc(mine, head, Ties(s[1..], z, le));
    assert head + mine == mine + head;
  }

  lemma TiesCons<T>(y: T, t: seq<T>, z: T, le: (T, T) -> bool)
    ensures Ties([y] + t, z, le) == (if Tie(y, z, le) then [y] else []) + Ties(t, z, le)
  {
    assert ([y] + t)[1..] == t;
  }

  /** The sort returns a permutation of its input. */
  lemma {:induction false} SortByPermutes<T>(s: seq<T>, le: (T, T) -> bool)
    ensures multiset(SortBy(s, le)) == multiset(s)
  {
    if s != [] {
      SortByPermutes(s[1..], le);
      InsertPermutes(s[0], SortBy(s[1..], le), le);
      assert s == [s[0]] + s[1..];
    }
  }

  /** The sort returns its input in order. */
  lemma {:induction false} SortBySorts<T(!new)>(s: seq<T>, le: (T, T) -> bool)
    requires TotalPreorder(le)
    ensures Sorted(SortBy(s, le), le)
  {
    if s != [] {
      SortBySorts(s[1..], le);
      InsertKeepsSorted(s[0], SortBy(s[1..], le), le);
    }
  }

  /** The sort is stable: elements that tie keep their relative input order. */
  lemma {:induction false} SortByIsStable<T(!new)>(s: seq<T>, z: T, le: (T, T) -> bool)
    requires TotalPreorder(le)
    ensures Ties(SortBy(s, le), z, le) == Ties(s, z, le)
  {
    if s != [] {
      SortByIsStable(s[1..], z, le);
      InsertTies(s[0], SortBy(s[1..], le), z, le);
    }
  }

  lemma {:induction false} SortByLength<T>(s: seq<T>, le: (T, T) -> bool)
    ensures |SortBy(s, le)| == |s|
  {
    SortByPermutes(s, le);
    assert |multiset(SortBy(s, le))| == |multiset(s)|;
  }

  lemma InsertMembers<T>(x: T, s: seq<T>, le: (T, T) -> bool, y: T)
    ensures y in Insert(x, s, le) <==> y == x || y in s
  {
    InsertPermutes(x, s, le);
    assert y in Insert(x, s, le) <==> y in multiset(Insert(x, s, le));
  }

  lemma SortByMembers<T>(s: seq<T>, le: (T, T) -> bool, y: T)
    ensures y in SortBy(s, le) <==> y in s
  {
    SortByPermutes(s, le);
    assert y in SortBy(s, le) <==> y in multiset(SortBy(s, le));
  }

  /** No two elements share a key. */
  predicate DistinctBy<T, K(==)>(s: seq<T>, key: T -> K) {
    forall i, j :: 0 <= i < j < |s| ==> key(s[i]) != key(s[j])
  }

  lemma {:induction false} InsertKeepsDistinct<T, K>(x: T, s: seq<T>, le: (T, T) -> bool, key: T -> K)
    requires DistinctBy(s, key)
    requires forall y :: y in s ==> key(y) != key(x)
    ensures DistinctBy(Insert(x, s, le), key)
  {
    if s != [] && !le(x, s[0]) {
      assert forall y :: y in s[1..] ==> y in s;
      InsertKeepsDistinct(x, s[1..], le, key);
      var t := Insert(x, s[1..], le);
      forall j | 0 <= j < |t| ensures key(s[0]) != key(t[j]) {
        InsertMembers(x, s[1..], le, t[j]);
        if t[j] != x {
          var k :| 0 <= k < |s[1..]| && s[1..][k] == t[j];
          assert s[k + 1] == t[j];
        }
      }
      assert forall j :: 1 <= j < |[s[0]] + t| ==> ([s[0]] + t)[j] == t[j - 1];
    }
  }

  /** Sorting keeps keys that were distinct distinct. */
  lemma {:induction false} SortByKeepsDistinct<T, K>(s: seq<T>, le: (T, T) -> bool, key: T -> K)
    requires DistinctBy(s, key)
    ensures DistinctBy(SortBy(s, le), key)
  {
    if s != [] {
      assert forall i, j :: 0 <= i < j < |s[1..]| ==> s[1..][i] == s[i + 1] && s[1..][j] == s[j + 1];
      SortByKeepsDistinct(s[1..], le, key);
      SortByPermutes(s[1..], le);
      forall y | y in SortBy(s[1..], le) ensures key(y) != key(s[0]) {
        assert y in multiset(SortBy(s[1..], le));
        var k :| 0 <= k < |s[1..]| && s[1..][k] == y;
        assert s[k + 1] == y;
      }
      InsertKeepsDistinct(s[0], SortBy(s[1..], le), le, key);
    }
  }
}
