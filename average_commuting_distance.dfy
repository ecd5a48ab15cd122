/** Gap-filling of the commuting origin-destination table and the per-commune share
    of public transport in the work flows (data/od/average_commuting_distance.py). */
module AverageCommutingDistance {
  import opened Strings
  import opened Sorting

  /** One row of the work flow table: origin commune, destination commune, the value of
      the category column (the commute mode) and the flow weight. */
  datatype Flow = Flow(originId: string, destinationId: string, category: string, weight: real)

  /** The origin_id values present in the table. */
  function Origins(flows: seq<Flow>): set<string>
  {
    set f | f in flows :: f.originId
  }

  /** The values of the category column. */
  function Categories(flows: seq<Flow>): set<string>
  {
    set f | f in flows :: f.category
  }

  /** The communes that never occur as an origin. */
  function MissingOrigins(flows: seq<Flow>, communeIds: set<string>): set<string>
  {
    communeIds - Origins(flows)
  }

  /** The row added for one (origin, destination, category) triple: every trip of a
      gap-filled commune stays inside the commune. */
  function SyntheticFlow(originId: string, destinationId: string, category: string): Flow
  {
    Flow(originId, destinationId, category, if originId == destinationId then 1.0 else 0.0)
  }

  /** f is one of the rows fix_origins adds for these missing origins, communes and categories. */
  predicate IsGapRow(f: Flow, missing: set<string>, communeIds: set<string>, categories: set<string>)
  {
    && f.originId in missing
    && f.destinationId in communeIds
    && f.category in categories
    && f == SyntheticFlow(f.originId, f.destinationId, f.category)
  }

  // ---------------------------------------------------------------------------------------------
  // The rows the triple loop appends, in the order it appends them.

  /** The innermost loop: one origin, one destination, the categories in ks. */
  function Cells(originId: string, destinationId: string, ks: seq<string>): seq<Flow>
  {
    if ks == [] then []
    else Cells(originId, destinationId, ks[..|ks| - 1]) + [SyntheticFlow(originId, destinationId, ks[|ks| - 1])]
  }

  /** The middle loop: one origin, the destinations in ds. */
  function Block(originId: string, ds: seq<string>, ks: seq<string>): seq<Flow>
  {
    if ds == [] then []
    else Block(originId, ds[..|ds| - 1], ks) + Cells(originId, ds[|ds| - 1], ks)
  }

  /** The outer loop: the missing origins in ms. */
  function GapRows(ms: seq<string>, ds: seq<string>, ks: seq<string>): (rows: seq<Flow>)
    ensures forall f :: f in rows ==>
      f.originId in ms && f.destinationId in ds && f.category in ks
      && f == SyntheticFlow(f.originId, f.destinationId, f.category)
  {
    if ms == [] then []
    else
      BlockShape(ms[|ms| - 1], ds, ks);
      GapRows(ms[..|ms| - 1], ds, ks) + Block(ms[|ms| - 1], ds, ks)
  }

  lemma {:induction false} CellsShape(o: string, d: string, ks: seq<string>)
    ensures |Cells(o, d, ks)| == |ks|
    ensures forall f :: f in Cells(o, d, ks) <==>
      f.category in ks && f == SyntheticFlow(o, d, f.category)
  {
    if ks != [] {
      CellsShape(o, d, ks[..|ks| - 1]);
      assert ks == ks[..|ks| - 1] + [ks[|ks| - 1]];
    }
  }

  lemma {:induction false} BlockShape(o: string, ds: seq<string>, ks: seq<string>)
    ensures |Block(o, ds, ks)| == |ds| * |ks|
    ensures forall f :: f in Block(o, ds, ks) <==>
      f.destinationId in ds && f.category in ks && f == SyntheticFlow(o, f.destinationId, f.category)
  {
    if ds != [] {
      var init, last := ds[..|ds| - 1], ds[|ds| - 1];
      BlockShape(o, init, ks);
      CellsShape(o, last, ks);
      LastSplit(ds);
      ProductStep(|init|, |ks|);
      assert forall f :: f in Block(o, ds, ks) <==> f in Block(o, init, ks) || f in Cells(o, last, ks);
    }
  }

  /** The triple loop appends |ms| * |ds| * |ks| rows, exactly the synthetic rows of the triples. */
  lemma {:induction false} GapRowsShape(ms: seq<string>, ds: seq<string>, ks: seq<string>)
    ensures |GapRows(ms, ds, ks)| == |ms| * (|ds| * |ks|)
    ensures forall f :: f in GapRows(ms, ds, ks) <==>
      && f.originId in ms && f.destinationId in ds && f.category in ks
      && f == SyntheticFlow(f.originId, f.destinationId, f.category)
  {
    if ms != [] {
      var init, last := ms[..|ms| - 1], ms[|ms| - 1];
      GapRowsShape(init, ds, ks);
      BlockShape(last, ds, ks);
      LastSplit(ms);
      ProductStep(|init|, |ds| * |ks|);
      assert forall f :: f in GapRows(ms, ds, ks) <==> f in GapRows(init, ds, ks) || f in Block(last, ds, ks);
    }
  }

  /** A non-empty sequence is its front and its last element. */
  lemma LastSplit<T>(s: seq<T>)
    requires s != []
    ensures |s| == |s[..|s| - 1]| + 1
    ensures forall x :: x in s <==> x in s[..|s| - 1] || x == s[|s| - 1]
  {
    assert s == s[..|s| - 1] + [s[|s| - 1]];
  }

  lemma ProductStep(n: nat, m: nat)
    ensures (n + 1) * m == n * m + m
  {
  }

  // ---------------------------------------------------------------------------------------------
  // Sorting by (origin_id, destination_id).

  /** The row order of sort_values(["origin_id", "destination_id"]). */
  predicate FlowLeq(a: Flow, b: Flow)
  {
    if a.originId == b.originId then LexLeq(a.destinationId, b.destinationId)
    else LexLeq(a.originId, b.originId)
  }

  lemma FlowLeqIsTotalPreorder()
    ensures IsTotalPreorder(FlowLeq)
  {
    forall a: Flow, b: Flow
      ensures FlowLeq(a, b) || FlowLeq(b, a)
    {
      LexLeqTotal(a.originId, b.originId);
      LexLeqTotal(a.destinationId, b.destinationId);
    }
    forall a: Flow, b: Flow, c: Flow | FlowLeq(a, b) && FlowLeq(b, c)
      ensures FlowLeq(a, c)
    {
      FlowLeqTransitive(a, b, c);
    }
  }

  lemma FlowLeqTransitive(a: Flow, b: Flow, c: Flow)
    requires FlowLeq(a, b) && FlowLeq(b, c)
    ensures FlowLeq(a, c)
  {
    if a.originId == b.originId && b.originId == c.originId {
      LexLeqTransitive(a.destinationId, b.destinationId, c.destinationId);
    } else if a.originId != b.originId && b.originId != c.originId {
      LexLeqTransitive(a.originId, b.originId, c.originId);
      if a.originId == c.originId {
        LexLeqAntisymmetric(a.originId, b.originId);
      }
    }
  }

  /** The rows sorted by origin, then destination; rows that tie keep their order. */
  function SortedFlows(flows: seq<Flow>): (r: seq<Flow>)
    ensures SortedBy(r, FlowLeq)
    ensures multiset(r) == multiset(flows)
  {
    FlowLeqIsTotalPreorder();
    SortBy(flows, FlowLeq)
  }

  // ---------------------------------------------------------------------------------------------
  // Group-by sums.

  /** Whether row f is summed into origin o's total (ptOnly: into its pt weight). */
  predicate Counted(f: Flow, o: string, ptOnly: bool)
  {
    f.originId == o && (ptOnly ==> f.category == "pt")
  }

  /** groupby("origin_id").sum() of the weight for origin o, over all rows or the "pt" rows. */
  function OriginWeight(flows: seq<Flow>, o: string, ptOnly: bool): (w: real)
    ensures (forall f :: f in flows ==> f.weight >= 0.0) ==> w >= 0.0
  {
    if flows == [] then 0.0
    else (if Counted(flows[0], o, ptOnly) then flows[0].weight else 0.0) + OriginWeight(flows[1..], o, ptOnly)
  }

  lemma {:induction false} OriginWeightAppend(a: seq<Flow>, b: seq<Flow>, o: string, ptOnly: bool)
    ensures OriginWeight(a + b, o, ptOnly) == OriginWeight(a, o, ptOnly) + OriginWeight(b, o, ptOnly)
  {
    if a == [] {
      assert a + b == b;
    } else {
      assert (a + b)[1..] == a[1..] + b;
      OriginWeightAppend(a[1..], b, o, ptOnly);
    }
  }

  lemma {:induction false} OriginWeightInsert(x: Flow, s: seq<Flow>, o: string, ptOnly: bool)
    requires IsTotalPreorder(FlowLeq) && SortedBy(s, FlowLeq)
    ensures OriginWeight(Insert(x, s, FlowLeq), o, ptOnly) == OriginWeight([x] + s, o, ptOnly)
  {
    if s != [] && !FlowLeq(x, s[0]) {
      var rest := Insert(x, s[1..], FlowLeq);
      assert Insert(x, s, FlowLeq) == [s[0]] + rest;
      assert ([s[0]] + rest)[1..] == rest;
      OriginWeightInsert(x, s[1..], o, ptOnly);
      assert ([x] + s[1..])[1..] == s[1..];
      assert ([x] + s)[1..] == s;
    }
  }

  /** Sorting does not change any group sum. */
  lemma {:induction false} OriginWeightSorted(s: seq<Flow>, o: string, ptOnly: bool)
    ensures OriginWeight(SortedFlows(s), o, ptOnly) == OriginWeight(s, o, ptOnly)
  {
    FlowLeqIsTotalPreorder();
    if s != [] {
      OriginWeightSorted(s[1..], o, ptOnly);
      assert SortBy(s, FlowLeq) == Insert(s[0], SortBy(s[1..], FlowLeq), FlowLeq);
      OriginWeightInsert(s[0], SortBy(s[1..], FlowLeq), o, ptOnly);
      assert ([s[0]] + SortBy(s[1..], FlowLeq))[1..] == SortBy(s[1..], FlowLeq);
    }
  }

  /** An origin without rows sums to zero. */
  lemma {:induction false} OriginWeightAbsent(s: seq<Flow>, o: string, ptOnly: bool)
    requires o !in Origins(s)
    ensures OriginWeight(s, o, ptOnly) == 0.0
  {
    if s != [] {
      assert s[0] in s;
      assert Origins(s[1..]) <= Origins(s) by {
        forall f | f in s[1..] ensures f in s { }
      }
      OriginWeightAbsent(s[1..], o, ptOnly);
    }
  }

  /** With non-negative weights, the pt weight of an origin is between zero and its total. */
  lemma {:induction false} PtWeightAtMostTotal(s: seq<Flow>, o: string)
    requires forall f :: f in s ==> f.weight >= 0.0
    ensures 0.0 <= OriginWeight(s, o, true) <= OriginWeight(s, o, false)
  {
    if s != [] {
      assert s[0] in s;
      assert forall f :: f in s[1..] ==> f in s;
      PtWeightAtMostTotal(s[1..], o);
    }
  }

  /** The weight the synthetic rows of one commune contribute to its own sums: one unit
      per category in the total, one unit for the "pt" category in the pt weight. */
  function SelfWeight(ks: seq<string>, ptOnly: bool): real
  {
    if ptOnly then (if "pt" in ks then 1.0 else 0.0) else |ks| as real
  }

  lemma {:induction false} CellsWeight(o': string, d: string, ks: seq<string>, o: string, ptOnly: bool)
    requires Distinct(ks)
    ensures OriginWeight(Cells(o', d, ks), o, ptOnly) == if o' == o && d == o then SelfWeight(ks, ptOnly) else 0.0
  {
    if ks != [] {
      var init, last := ks[..|ks| - 1], ks[|ks| - 1];
      assert ks == init + [last];
      assert Distinct(init);
      CellsWeight(o', d, init, o, ptOnly);
      OriginWeightAppend(Cells(o', d, init), [SyntheticFlow(o', d, last)], o, ptOnly);
      assert [SyntheticFlow(o', d, last)][1..] == [];
      if last == "pt" {
        assert "pt" !in init by {
          forall i | 0 <= i < |init| ensures init[i] != "pt" {
            assert ks[i] != ks[|ks| - 1];
          }
        }
      }
    }
  }

  lemma {:induction false} BlockWeight(o': string, ds: seq<string>, ks: seq<string>, o: string, ptOnly: bool)
    requires Distinct(ds) && Distinct(ks)
    ensures OriginWeight(Block(o', ds, ks), o, ptOnly) == if o' == o && o in ds then SelfWeight(ks, ptOnly) else 0.0
  {
    if ds != [] {
      var init, last := ds[..|ds| - 1], ds[|ds| - 1];
      assert ds == init + [last];
      assert Distinct(init);
      BlockWeight(o', init, ks, o, ptOnly);
      CellsWeight(o', last, ks, o, ptOnly);
      OriginWeightAppend(Block(o', init, ks), Cells(o', last, ks), o, ptOnly);
      if last == o {
        assert o !in init by {
          forall i | 0 <= i < |init| ensures init[i] != o {
            assert ds[i] != ds[|ds| - 1];
          }
        }
      }
    }
  }

  /** A missing origin that is itself a commune receives exactly its SelfWeight; every
      other origin receives nothing from the appended rows. */
  lemma {:induction false} GapRowsWeight(ms: seq<string>, ds: seq<string>, ks: seq<string>, o: string, ptOnly: bool)
    requires Distinct(ms) && Distinct(ds) && Distinct(ks)
    ensures OriginWeight(GapRows(ms, ds, ks), o, ptOnly) == if o in ms && o in ds then SelfWeight(ks, ptOnly) else 0.0
  {
    if ms != [] {
      var init, last := ms[..|ms| - 1], ms[|ms| - 1];
      assert ms == init + [last];
      assert Distinct(init);
      GapRowsWeight(init, ds, ks, o, ptOnly);
      BlockWeight(last, ds, ks, o, ptOnly);
      OriginWeightAppend(GapRows(init, ds, ks), Block(last, ds, ks), o, ptOnly);
      if last == o {
        assert o !in init by {
          forall i | 0 <= i < |init| ensures init[i] != o {
            assert ms[i] != ms[|ms| - 1];
          }
        }
      }
    }
  }

  /** The weight gap-filling adds to origin o's sums: a missing commune gets one unit per
      category in its total and one unit, if "pt" is a category, in its pt weight. */
  function GapShare(missing: set<string>, categories: set<string>, o: string, ptOnly: bool): real
  {
    if o !in missing then 0.0
    else if ptOnly then (if "pt" in categories then 1.0 else 0.0)
    else |categories| as real
  }

  // ---------------------------------------------------------------------------------------------
  // fix_origins (lines 12-27).

  /** Iterating over a Python set: every element once, in an order the model leaves open. */
  method Enumerate(s: set<string>) returns (r: seq<string>)
    ensures Distinct(r) && |r| == |s|
    ensures forall x :: x in r <==> x in s
  {
    r := [];
    var rest := s;
    while rest != {}
      invariant Distinct(r) && |r| + |rest| == |s|
      invariant forall x :: x in s <==> x in r || x in rest
      invariant forall x :: x in r ==> x !in rest
      decreases |rest|
    {
      var x :| x in rest;
      r := r + [x];
      rest := rest - {x};
    }
  }

  /** Lines 17-21: the triple loop over the missing origins, the communes and the categories. */
  method AppendGapRows(ms: seq<string>, ds: seq<string>, ks: seq<string>) returns (rows: seq<Flow>)
    ensures rows == GapRows(ms, ds, ks)
  {
    rows := [];
    for i := 0 to |ms|
      invariant rows == GapRows(ms[..i], ds, ks)
    {
      var block := [];
      for j := 0 to |ds|
        invariant block == Block(ms[i], ds[..j], ks)
      {
        var cells := [];
        for l := 0 to |ks|
          invariant cells == Cells(ms[i], ds[j], ks[..l])
        {
          assert ks[..l + 1][..l] == ks[..l];
          cells := cells + [SyntheticFlow(ms[i], ds[j], ks[l])];
        }
        assert ks[..|ks|] == ks;
        assert ds[..j + 1][..j] == ds[..j];
        block := block + cells;
      }
      assert ds[..|ds|] == ds;
      assert ms[..i + 1][..i] == ms[..i];
      rows := rows + block;
    }
    assert ms[..|ms|] == ms;
  }

  /** Appends, for every commune missing as an origin, one row per (commune, category)
      with weight 1 on the commune itself and 0 elsewhere, then sorts by (origin, destination). */
  method FixOrigins(flows: seq<Flow>, communeIds: set<string>) returns (fixed: seq<Flow>)
    ensures SortedBy(fixed, FlowLeq)
    ensures multiset(flows) <= multiset(fixed)
    ensures |fixed| == |flows| + |MissingOrigins(flows, communeIds)| * (|communeIds| * |Categories(flows)|)
    ensures forall f :: f in fixed ==>
      f in flows || IsGapRow(f, MissingOrigins(flows, communeIds), communeIds, Categories(flows))
    ensures forall o, d, k :: o in MissingOrigins(flows, communeIds) && d in communeIds && k in Categories(flows) ==>
      SyntheticFlow(o, d, k) in fixed
    ensures forall o, ptOnly :: OriginWeight(fixed, o, ptOnly) ==
                                OriginWeight(flows, o, ptOnly) + GapShare(MissingOrigins(flows, communeIds), Categories(flows), o, ptOnly)
    ensures forall f :: f in fixed && f.originId in Origins(flows) ==> multiset(fixed)[f] == multiset(flows)[f]
    ensures Categories(flows) != {} ==> communeIds <= Origins(fixed)
    ensures Categories(flows) == {} ==> fixed == flows
  {
    var ms := Enumerate(MissingOrigins(flows, communeIds));
    var ds := Enumerate(communeIds);
    var ks := Enumerate(Categories(flows));
    var rows := AppendGapRows(ms, ds, ks);
    fixed := SortedFlows(flows + rows);
    GapRowsShape(ms, ds, ks);
    GapMembers(flows, communeIds, ms, ds, ks, fixed);
    GapWeights(flows, communeIds, ms, ds, ks, fixed);
    GapCoverage(flows, communeIds, fixed);
  }

  /** Sorting the input with the appended rows keeps every input row and adds exactly
      the synthetic rows of the missing origins. */
  lemma GapMembers(flows: seq<Flow>, communeIds: set<string>, ms: seq<string>, ds: seq<string>, ks: seq<string>,
                   fixed: seq<Flow>)
    requires forall x :: x in ms <==> x in MissingOrigins(flows, communeIds)
    requires forall x :: x in ds <==> x in communeIds
    requires forall x :: x in ks <==> x in Categories(flows)
    requires fixed == SortedFlows(flows + GapRows(ms, ds, ks))
    ensures multiset(flows) <= multiset(fixed)
    ensures forall f :: f in fixed ==>
      f in flows || IsGapRow(f, MissingOrigins(flows, communeIds), communeIds, Categories(flows))
    ensures forall o, d, k :: o in MissingOrigins(flows, communeIds) && d in communeIds && k in Categories(flows) ==>
      SyntheticFlow(o, d, k) in fixed
    ensures forall f :: f in fixed && f.originId in Origins(flows) ==> multiset(fixed)[f] == multiset(flows)[f]
  {
    var rows := GapRows(ms, ds, ks);
    GapRowsShape(ms, ds, ks);
    assert multiset(fixed) == multiset(flows) + multiset(rows);
    forall f: Flow | f.originId in Origins(flows)
      ensures multiset(rows)[f] == 0
    {
      assert f !in rows;
    }
    forall f | f in fixed
      ensures f in flows || f in rows
    {
      assert f in multiset(fixed);
    }
    forall f | f in rows
      ensures f in fixed
    {
      assert f in multiset(rows);
      assert f in multiset(fixed);
    }
  }

  /** The group sums after gap-filling: an existing origin keeps its sums, a missing one
      gets its GapShare. */
  lemma GapWeights(flows: seq<Flow>, communeIds: set<string>, ms: seq<string>, ds: seq<string>, ks: seq<string>,
                   fixed: seq<Flow>)
    requires Distinct(ms) && forall x :: x in ms <==> x in MissingOrigins(flows, communeIds)
    requires Distinct(ds) && forall x :: x in ds <==> x in communeIds
    requires Distinct(ks) && |ks| == |Categories(flows)| && forall x :: x in ks <==> x in Categories(flows)
    requires fixed == SortedFlows(flows + GapRows(ms, ds, ks))
    ensures forall o, ptOnly :: OriginWeight(fixed, o, ptOnly) ==
                                OriginWeight(flows, o, ptOnly) + GapShare(MissingOrigins(flows, communeIds), Categories(flows), o, ptOnly)
  {
    var rows := GapRows(ms, ds, ks);
    forall o, ptOnly
      ensures OriginWeight(fixed, o, ptOnly) ==
              OriginWeight(flows, o, ptOnly) + GapShare(MissingOrigins(flows, communeIds), Categories(flows), o, ptOnly)
    {
      OriginWeightSorted(flows + rows, o, ptOnly);
      OriginWeightAppend(flows, rows, o, ptOnly);
      GapRowsWeight(ms, ds, ks, o, ptOnly);
    }
  }

  /** Every commune is an origin after gap-filling as soon as the table has a category value;
      an empty table has none, and is returned as it is. */
  lemma GapCoverage(flows: seq<Flow>, communeIds: set<string>, fixed: seq<Flow>)
    requires multiset(flows) <= multiset(fixed)
    requires |fixed| == |flows| + |MissingOrigins(flows, communeIds)| * (|communeIds| * |Categories(flows)|)
    requires forall o, d, k :: o in MissingOrigins(flows, communeIds) && d in communeIds && k in Categories(flows) ==>
      SyntheticFlow(o, d, k) in fixed
    ensures Categories(flows) != {} ==> communeIds <= Origins(fixed)
    ensures Categories(flows) == {} ==> fixed == flows
  {
    assert flows != [] ==> flows[0].category in Categories(flows);
    if Categories(flows) == {} {
      assert |fixed| == 0;
    } else {
      var k :| k in Categories(flows);
      forall c | c in communeIds
        ensures c in Origins(fixed)
      {
        if c in Origins(flows) {
          var f :| f in flows && f.originId == c;
          assert f in multiset(flows);
          assert f in multiset(fixed);
        } else {
          assert SyntheticFlow(c, c, k) in fixed;
        }
      }
    }
  }

  // ---------------------------------------------------------------------------------------------
  // PT share (lines 40-46).

  /** A PT_share value: 100 * pt weight / total weight, or the inf or nan that a zero
      total produces. */
  datatype Share = Percent(value: real) | NotFinite

  function ShareOf(pt: real, total: real): (share: Share)
    ensures share.NotFinite? <==> total == 0.0
    ensures share.Percent? ==> share.value * total == 100.0 * pt
  {
    if total == 0.0 then NotFinite else Percent(100.0 * pt / total)
  }

  /** The origins with at least one "pt" row: the groups of the pt-filtered table. */
  function PtOrigins(flows: seq<Flow>): set<string>
  {
    set f | f in flows && f.category == "pt" :: f.originId
  }

  /** Lines 40-46: the pt weight and the total weight summed per origin, the pt groups
      merged with the totals (left merge, so the pt groups decide the rows), and the share. */
  function PtShares(flows: seq<Flow>): (shares: map<string, Share>)
    ensures forall o :: o in shares <==> exists f :: f in flows && f.originId == o && f.category == "pt"
    ensures forall o :: o in shares ==>
      shares[o] == ShareOf(OriginWeight(flows, o, true), OriginWeight(flows, o, false))
  {
    map o | o in PtOrigins(flows) :: ShareOf(OriginWeight(flows, o, true), OriginWeight(flows, o, false))
  }

  /** With non-negative weights and a positive total, the share is a percentage. */
  lemma PtShareInRange(flows: seq<Flow>, o: string)
    requires forall f :: f in flows ==> f.weight >= 0.0
    requires o in PtOrigins(flows) && OriginWeight(flows, o, false) > 0.0
    ensures o in PtShares(flows) && PtShares(flows)[o].Percent?
    ensures 0.0 <= PtShares(flows)[o].value <= 100.0
  {
    PtWeightAtMostTotal(flows, o);
    PercentOfPart(OriginWeight(flows, o, true), OriginWeight(flows, o, false));
  }

  lemma PercentOfPart(part: real, whole: real)
    requires 0.0 <= part <= whole && whole > 0.0
    ensures 0.0 <= 100.0 * part / whole <= 100.0
  {
    var r := 100.0 * part / whole;
    assert r * whole == 100.0 * part;
    assert (100.0 - r) * whole == 100.0 * (whole - part);
    assert 100.0 - r >= 0.0;
  }

  /** The shares after gap-filling: the table's own pt origins keep their share, and a
      missing commune gets one if "pt" is a category, namely 100 / |categories|. */
  lemma SharesAfterGapFill(flows: seq<Flow>, communeIds: set<string>, fixed: seq<Flow>)
    requires multiset(flows) <= multiset(fixed)
    requires forall f :: f in fixed ==>
      f in flows || IsGapRow(f, MissingOrigins(flows, communeIds), communeIds, Categories(flows))
    requires forall o, d, k :: o in MissingOrigins(flows, communeIds) && d in communeIds && k in Categories(flows) ==>
      SyntheticFlow(o, d, k) in fixed
    requires forall o, ptOnly :: OriginWeight(fixed, o, ptOnly) ==
                                 OriginWeight(flows, o, ptOnly) + GapShare(MissingOrigins(flows, communeIds), Categories(flows), o, ptOnly)
    ensures forall o :: o in PtShares(fixed) <==>
      o in PtOrigins(flows) || (o in MissingOrigins(flows, communeIds) && "pt" in Categories(flows))
    ensures forall o :: o in PtShares(fixed) && o !in MissingOrigins(flows, communeIds) ==>
      PtShares(fixed)[o] == ShareOf(OriginWeight(flows, o, true), OriginWeight(flows, o, false))
    ensures forall o :: o in PtShares(fixed) && o in MissingOrigins(flows, communeIds) ==>
      PtShares(fixed)[o] == Percent(100.0 / |Categories(flows)| as real)
  {
    GapFilledPtOrigins(flows, communeIds, fixed);
    GapFilledWeights(flows, communeIds, fixed);
  }

  /** The pt origins after gap-filling: the table's own, and the missing communes when "pt"
      is a category. */
  lemma GapFilledPtOrigins(flows: seq<Flow>, communeIds: set<string>, fixed: seq<Flow>)
    requires multiset(flows) <= multiset(fixed)
    requires forall f :: f in fixed ==>
      f in flows || IsGapRow(f, MissingOrigins(flows, communeIds), communeIds, Categories(flows))
    requires forall o, d, k :: o in MissingOrigins(flows, communeIds) && d in communeIds && k in Categories(flows) ==>
      SyntheticFlow(o, d, k) in fixed
    ensures forall o :: o in PtOrigins(fixed) <==>
      o in PtOrigins(flows) || (o in MissingOrigins(flows, communeIds) && "pt" in Categories(flows))
  {
    var missing := MissingOrigins(flows, communeIds);
    forall o
      ensures o in PtOrigins(fixed) <==> o in PtOrigins(flows) || (o in missing && "pt" in Categories(flows))
    {
      if o in PtOrigins(flows) {
        var f :| f in flows && f.category == "pt" && f.originId == o;
        assert f in multiset(flows);
        assert f in multiset(fixed);
      }
      if o in missing && "pt" in Categories(flows) {
        assert SyntheticFlow(o, o, "pt") in fixed;
      }
    }
  }

  /** A missing commune's sums after gap-filling: one unit per category in total, and one
      pt unit when "pt" is a category. */
  lemma GapFilledWeights(flows: seq<Flow>, communeIds: set<string>, fixed: seq<Flow>)
    requires forall o, ptOnly :: OriginWeight(fixed, o, ptOnly) ==
                                 OriginWeight(flows, o, ptOnly) + GapShare(MissingOrigins(flows, communeIds), Categories(flows), o, ptOnly)
    ensures forall o :: o in MissingOrigins(flows, communeIds) ==>
      && (OriginWeight(fixed, o, true) == 1.0 || "pt" !in Categories(flows))
      && OriginWeight(fixed, o, false) == |Categories(flows)| as real
  {
    forall o | o in MissingOrigins(flows, communeIds)
      ensures OriginWeight(fixed, o, true) == 1.0 || "pt" !in Categories(flows)
      ensures OriginWeight(fixed, o, false) == |Categories(flows)| as real
    {
      OriginWeightAbsent(flows, o, true);
      OriginWeightAbsent(flows, o, false);
    }
  }

  /** Lines 33-46: gap-fills the work flows over the communes, then computes the PT share
      of every origin that has pt rows. */
  method Execute(flows: seq<Flow>, communeIds: set<string>) returns (shares: map<string, Share>)
    ensures forall o :: o in shares <==>
      o in PtOrigins(flows) || (o in MissingOrigins(flows, communeIds) && "pt" in Categories(flows))
    ensures forall o :: o in shares && o !in MissingOrigins(flows, communeIds) ==>
      shares[o] == ShareOf(OriginWeight(flows, o, true), OriginWeight(flows, o, false))
    ensures forall o :: o in shares && o in MissingOrigins(flows, communeIds) ==>
      shares[o] == Percent(100.0 / |Categories(flows)| as real)
  {
    var fixed := FixOrigins(flows, communeIds);
    shares := PtShares(fixed);
    SharesAfterGapFill(flows, communeIds, fixed);
  }
}
