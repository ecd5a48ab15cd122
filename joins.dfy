/** pandas' merge(left, right, on = key) with the default how = "inner", on one key column. */
module Joins {

  /** The rows of `right` whose key is k, in their order: the partners of one left row. */
  function Partners<R, K(==)>(right: seq<R>, rk: R -> K, k: K): (p: seq<R>)
    ensures |p| <= |right|
    ensures forall x :: x in p ==> x in right && rk(x) == k
  {
    if right == [] then []
    else (if rk(right[0]) == k then [right[0]] else []) + Partners(right[1..], rk, k)
  }

  /** Partners keeps each matching right row as often as it occurs, and nothing else. */
  lemma {:induction false} PartnersMultiset<R, K>(right: seq<R>, rk: R -> K, k: K)
    ensures forall x :: multiset(Partners(right, rk, k))[x] == if rk(x) == k then multiset(right)[x] else 0
  {
    if right != [] {
      PartnersMultiset(right[1..], rk, k);
      assert right == [right[0]] + right[1..];
    }
  }

  /** One left row paired with each of its partners. */
  function PairsWith<L, R>(l: L, ps: seq<R>): (j: seq<(L, R)>)
    ensures |j| == |ps|
  {
    seq(|ps|, i requires 0 <= i < |ps| => (l, ps[i]))
  }

  /** Every left row paired with each of its partners, left rows in order. */
  function InnerJoin<L, R, K(==)>(left: seq<L>, right: seq<R>, lk: L -> K, rk: R -> K): (j: seq<(L, R)>)
    ensures forall p :: p in j ==> p.0 in left && p.1 in right && lk(p.0) == rk(p.1)
  {
    if left == [] then []
    else PairsWith(left[0], Partners(right, rk, lk(left[0]))) + InnerJoin(left[1..], right, lk, rk)
  }

  /** Pairing one left row with a list of partners gives each partner once per occurrence. */
  lemma {:induction false} PairsWithMultiset<L, R>(l0: L, ps: seq<R>)
    ensures forall l, r :: multiset(PairsWith(l0, ps))[(l, r)] == if l == l0 then multiset(ps)[r] else 0
  {
    if ps != [] {
      PairsWithMultiset(l0, ps[1..]);
      assert PairsWith(l0, ps) == [(l0, ps[0])] + PairsWith(l0, ps[1..]);
      assert ps == [ps[0]] + ps[1..];
    }
  }

  /** The join as a bag: a pair of rows with equal keys occurs as often as the product of
      their multiplicities, and no other pair occurs. */
  lemma {:induction false} InnerJoinCount<L, R, K>(left: seq<L>, right: seq<R>, lk: L -> K, rk: R -> K, l: L, r: R)
    ensures multiset(InnerJoin(left, right, lk, rk))[(l, r)] ==
      if lk(l) == rk(r) then multiset(left)[l] * multiset(right)[r] else 0
  {
    if left != [] {
      InnerJoinCount(left[1..], right, lk, rk, l, r);
      InnerJoinHeadCount(left, right, lk, rk, l, r);
      MultisetHead(left, l);
      if l == left[0] {
        MulSucc(multiset(left)[l], multiset(left[1..])[l], multiset(right)[r]);
      }
    }
  }

  /** Counting an element of a non-empty sequence: the head plus the tail. */
  lemma MultisetHead<T>(s: seq<T>, x: T)
    requires s != []
    ensures multiset(s)[x] == multiset(s[1..])[x] + if x == s[0] then 1 else 0
  {
    assert s == [s[0]] + s[1..];
  }

  /** One unfolding of the join, counted for one pair. */
  lemma InnerJoinHeadCount<L, R, K>(left: seq<L>, right: seq<R>, lk: L -> K, rk: R -> K, l: L, r: R)
    requires left != []
    ensures multiset(InnerJoin(left, right, lk, rk))[(l, r)] ==
      (if l == left[0] && lk(l) == rk(r) then multiset(right)[r] else 0) +
      multiset(InnerJoin(left[1..], right, lk, rk))[(l, r)]
  {
    var ps := Partners(right, rk, lk(left[0]));
    PairsWithMultiset(left[0], ps);
    PartnersMultiset(right, rk, lk(left[0]));
    assert InnerJoin(left, right, lk, rk) == PairsWith(left[0], ps) + InnerJoin(left[1..], right, lk, rk);
  }

  lemma MulSucc(ml: nat, a: nat, m: nat)
    requires ml == a + 1
    ensures ml * m == a * m + m
  {
  }

  lemma MulPositive(a: nat, m: nat)
    requires a >= 1 && m >= 1
    ensures a * m >= 1
  {
  }

  /** Every pair of a left row and a right row with equal keys is in the join. */
  lemma InnerJoinComplete<L, R, K>(left: seq<L>, right: seq<R>, lk: L -> K, rk: R -> K, l: L, r: R)
    requires l in left && r in right && lk(l) == rk(r)
    ensures (l, r) in InnerJoin(left, right, lk, rk)
  {
    InnerJoinCount(left, right, lk, rk, l, r);
    var a, m := multiset(left)[l], multiset(right)[r];
    MulPositive(a, m);
  }

  /** Joining a concatenation of left tables is concatenating their joins. */
  lemma {:induction false} InnerJoinAppend<L, R, K>(a: seq<L>, b: seq<L>, right: seq<R>, lk: L -> K, rk: R -> K)
    ensures InnerJoin(a + b, right, lk, rk) == InnerJoin(a, right, lk, rk) + InnerJoin(b, right, lk, rk)
  {
    if a != [] {
      assert (a + b)[1..] == a[1..] + b;
      InnerJoinAppend(a[1..], b, right, lk, rk);
    } else {
      assert a + b == b;
    }
  }

  /** Every left row has exactly one partner: the join is a lookup. */
  predicate ExactlyOnePartner<L, R, K(==)>(left: seq<L>, right: seq<R>, lk: L -> K, rk: R -> K)
  {
    forall i :: 0 <= i < |left| ==> |Partners(right, rk, lk(left[i]))| == 1
  }

  /** No left row has two partners. */
  predicate AtMostOnePartner<L, R, K(==)>(left: seq<L>, right: seq<R>, lk: L -> K, rk: R -> K)
  {
    forall i :: 0 <= i < |left| ==> |Partners(right, rk, lk(left[i]))| <= 1
  }

  /** The keys of `right` are pairwise distinct. */
  predicate UniqueKeys<R, K(==)>(right: seq<R>, rk: R -> K)
  {
    forall i, j :: 0 <= i < j < |right| ==> rk(right[i]) != rk(right[j])
  }

  /** A right table with unique keys has at most one partner for any key. */
  lemma {:induction false} UniqueKeysAtMostOne<R, K>(right: seq<R>, rk: R -> K, k: K)
    requires UniqueKeys(right, rk)
    ensures |Partners(right, rk, k)| <= 1
  {
    if right != [] {
      assert UniqueKeys(right[1..], rk);
      UniqueKeysAtMostOne(right[1..], rk, k);
      if rk(right[0]) == k {
        forall j | 0 <= j < |right[1..]| ensures rk(right[1..][j]) != k {
          assert right[1..][j] == right[j + 1];
        }
        NoPartnersWithoutKey(right[1..], rk, k);
      }
    }
  }

  /** A key that no right row carries has no partner. */
  lemma {:induction false} NoPartnersWithoutKey<R, K>(right: seq<R>, rk: R -> K, k: K)
    requires forall j :: 0 <= j < |right| ==> rk(right[j]) != k
    ensures Partners(right, rk, k) == []
  {
    if right != [] {
      NoPartnersWithoutKey(right[1..], rk, k);
    }
  }

  /** A key that some right row carries has a partner. */
  lemma {:induction false} PartnersOfPresentKey<R, K>(right: seq<R>, rk: R -> K, j: nat)
    requires j < |right|
    ensures |Partners(right, rk, rk(right[j]))| >= 1
  {
    if j > 0 {
      assert right[1..][j - 1] == right[j];
      PartnersOfPresentKey(right[1..], rk, j - 1);
    }
  }

  /** A join in which every left row has exactly one partner keeps the left table row for row. */
  lemma {:induction false} JoinOnExactlyOnePartner<L, R, K>(left: seq<L>, right: seq<R>, lk: L -> K, rk: R -> K)
    requires ExactlyOnePartner(left, right, lk, rk)
    ensures |InnerJoin(left, right, lk, rk)| == |left|
    ensures forall i :: 0 <= i < |left| ==>
      && InnerJoin(left, right, lk, rk)[i].0 == left[i]
      && InnerJoin(left, right, lk, rk)[i].1 == Partners(right, rk, lk(left[i]))[0]
  {
    if left != [] {
      assert ExactlyOnePartner(left[1..], right, lk, rk) by {
        forall i | 0 <= i < |left[1..]| ensures |Partners(right, rk, lk(left[1..][i]))| == 1 {
          assert left[1..][i] == left[i + 1];
        }
      }
      JoinOnExactlyOnePartner(left[1..], right, lk, rk);
      assert |Partners(right, rk, lk(left[0]))| == 1;
    }
  }

  /** When no row has two partners, the join keeps its length exactly when every row has one. */
  lemma {:induction false} JoinKeepsLengthIffAllMatched<L, R, K>(left: seq<L>, right: seq<R>, lk: L -> K, rk: R -> K)
    requires AtMostOnePartner(left, right, lk, rk)
    ensures |InnerJoin(left, right, lk, rk)| <= |left|
    ensures |InnerJoin(left, right, lk, rk)| == |left| <==> ExactlyOnePartner(left, right, lk, rk)
  {
    if left != [] {
      assert AtMostOnePartner(left[1..], right, lk, rk) by {
        forall i | 0 <= i < |left[1..]| ensures |Partners(right, rk, lk(left[1..][i]))| <= 1 {
          assert left[1..][i] == left[i + 1];
        }
      }
      JoinKeepsLengthIffAllMatched(left[1..], right, lk, rk);
      assert |Partners(right, rk, lk(left[0]))| <= 1;
      if ExactlyOnePartner(left, right, lk, rk) {
        assert |Partners(right, rk, lk(left[0]))| == 1;
        assert ExactlyOnePartner(left[1..], right, lk, rk) by {
          forall i | 0 <= i < |left[1..]| ensures |Partners(right, rk, lk(left[1..][i]))| == 1 {
            assert left[1..][i] == left[i + 1];
          }
        }
      } else if |Partners(right, rk, lk(left[0]))| == 1 {
        assert !ExactlyOnePartner(left[1..], right, lk, rk) by {
          var i :| 0 <= i < |left| && |Partners(right, rk, lk(left[i]))| != 1;
          assert i != 0 && left[1..][i - 1] == left[i];
        }
      }
    }
  }

  /** Joining on a right table with unique keys never adds rows, and keeps the row count
      exactly when every left row finds its partner. */
  lemma UniqueKeysJoinLength<L, R, K>(left: seq<L>, right: seq<R>, lk: L -> K, rk: R -> K)
    requires UniqueKeys(right, rk)
    ensures |InnerJoin(left, right, lk, rk)| <= |left|
    ensures |InnerJoin(left, right, lk, rk)| == |left| <==> ExactlyOnePartner(left, right, lk, rk)
  {
    forall i | 0 <= i < |left|
      ensures |Partners(right, rk, lk(left[i]))| <= 1
    {
      UniqueKeysAtMostOne(right, rk, lk(left[i]));
    }
    JoinKeepsLengthIffAllMatched(left, right, lk, rk);
  }

  /** A left row without partners contributes nothing to the join. */
  lemma DropUnpartneredRow<L, R, K>(left: seq<L>, right: seq<R>, lk: L -> K, rk: R -> K, i: nat)
    requires i < |left|
    requires forall j :: 0 <= j < |right| ==> rk(right[j]) != lk(left[i])
    ensures InnerJoin(left, right, lk, rk) == InnerJoin(left[..i] + left[i + 1..], right, lk, rk)
  {
    SplitAround(left, i);
    InnerJoinAppend(left[..i], left[i..], right, lk, rk);
    InnerJoinAppend([left[i]], left[i + 1..], right, lk, rk);
    InnerJoinAppend(left[..i], left[i + 1..], right, lk, rk);
    UnpartneredRowJoinsNothing(left[i], right, lk, rk);
    assert [] + InnerJoin(left[i + 1..], right, lk, rk) == InnerJoin(left[i + 1..], right, lk, rk);
  }

  lemma SplitAround<T>(s: seq<T>, i: nat)
    requires i < |s|
    ensures s == s[..i] + s[i..] && s[i..] == [s[i]] + s[i + 1..]
  {
  }

  lemma UnpartneredRowJoinsNothing<L, R, K>(l: L, right: seq<R>, lk: L -> K, rk: R -> K)
    requires forall j :: 0 <= j < |right| ==> rk(right[j]) != lk(l)
    ensures InnerJoin([l], right, lk, rk) == []
  {
    NoPartnersWithoutKey(right, rk, lk(l));
    assert [l][1..] == [];
  }
}
