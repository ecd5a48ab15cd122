/** pandas' sort_values, as a stable insertion sort over a total preorder on rows. */
module Sorting {

  /** leq orders every pair of rows and is transitive (ties allowed). */
  ghost predicate IsTotalPreorder<T(!new)>(leq: (T, T) -> bool)
  {
    && (forall a, b :: leq(a, b) || leq(b, a))
    && (forall a, b, c :: leq(a, b) && leq(b, c) ==> leq(a, c))
  }

  predicate SortedBy<T>(s: seq<T>, leq: (T, T) -> bool)
  {
    forall i, j :: 0 <= i < j < |s| ==> leq(s[i], s[j])
  }

  /** No row occurs twice. */
  predicate Distinct<T(==)>(s: seq<T>)
  {
    forall i, j :: 0 <= i < j < |s| ==> s[i] != s[j]
  }

  /** Places x in front of the first row it does not follow. */
  function Insert<T(!new)>(x: T, s: seq<T>, leq: (T, T) -> bool): (r: seq<T>)
    requires IsTotalPreorder(leq) && SortedBy(s, leq)
    ensures multiset(r) == multiset(s) + multiset{x}
    ensures SortedBy(r, leq)
  {
    if s == [] || leq(x, s[0]) then
      [x] + s
    else
      var rest := Insert(x, s[1..], leq);
      assert s == [s[0]] + s[1..];
      InsertedFollowsHead(x, s, rest, leq);
      [s[0]] + rest
  }

  lemma InsertedFollowsHead<T(!new)>(x: T, s: seq<T>, rest: seq<T>, leq: (T, T) -> bool)
    requires IsTotalPreorder(leq) && SortedBy(s, leq) && s != [] && !leq(x, s[0])
    requires multiset(rest) == multiset(s[1..]) + multiset{x}
    ensures forall j :: 0 <= j < |rest| ==> leq(s[0], rest[j])
  {
    forall j | 0 <= j < |rest|
      ensures leq(s[0], rest[j])
    {
      assert rest[j] in multiset(rest);
      if rest[j] != x {
        assert rest[j] in multiset(s[1..]);
        var k :| 0 <= k < |s[1..]| && s[1..][k] == rest[j];
        assert s[k + 1] == rest[j];
      }
    }
  }

  /** sort_values: a sorted permutation of the rows. */
  function SortBy<T(!new)>(s: seq<T>, leq: (T, T) -> bool): (r: seq<T>)
    requires IsTotalPreorder(leq)
    ensures SortedBy(r, leq)
    ensures multiset(r) == multiset(s)
  {
    if s == [] then []
    else
      assert s == [s[0]] + s[1..];
      Insert(s[0], SortBy(s[1..], leq), leq)
  }

  /** A row occurs at most once in a sequence without repetitions. */
  lemma {:induction false} DistinctCount<T>(s: seq<T>, x: T)
    requires Distinct(s)
    ensures multiset(s)[x] <= 1
  {
    if s != [] {
      var init := s[..|s| - 1];
      assert s == init + [s[|s| - 1]];
      DistinctCount(init, x);
      if s[|s| - 1] == x {
        assert x !in init;
      }
    }
  }

  /** A row found at two positions occurs at least twice. */
  lemma RepeatedCount<T>(s: seq<T>, k: nat, l: nat)
    requires k < l < |s| && s[k] == s[l]
    ensures multiset(s)[s[k]] >= 2
  {
    assert s == s[..l] + [s[l]] + s[l + 1..];
    assert s[k] in s[..l];
  }

  /** Reordering a sequence without repetitions gives one without repetitions. */
  lemma PermutationKeepsDistinct<T>(a: seq<T>, b: seq<T>)
    requires Distinct(a) && multiset(a) == multiset(b)
    ensures Distinct(b)
  {
    forall i, j | 0 <= i < j < |b|
      ensures b[i] != b[j]
    {
      if b[i] == b[j] {
        RepeatedCount(b, i, j);
        DistinctCount(a, b[i]);
        assert false;
      }
    }
  }
}
