/** The "Mileage vs Price" chart with fixed buckets: the filtered listings lose
    every row without a Mileage or a Price, then every row above the mileage
    cap; each remaining mileage is placed in one of eight right-closed
    intervals (`pd.cut` with `include_lowest`), and the rows are counted per
    bucket label. */
module Mileage {
  import opened Rows

  /** The bucket edges in miles. */
  const Edges: seq<int> := [0, 25000, 50000, 75000, 100000, 150000, 200000, 300000, 1000000]

  /** One label per interval between consecutive edges, in display order. */
  const Labels: seq<string> := ["0–25k", "25–50k", "50–75k", "75–100k", "100–150k", "150–200k", "200–300k", "300k+"]

  /** The label `astype(str)` gives a mileage that falls in no interval. */
  const NanLabel: string := "nan"

  /** The number of buckets, counting the "nan" one. */
  const Groups: nat := |Labels| + 1

  /** `Edges.searchsorted(m, side="left")`: how many edges lie strictly below `m`. */
  function CountBelow(edges: seq<int>, m: int): (n: nat)
    ensures n <= |edges|
  {
    if edges == [] then 0
    else (if edges[0] < m then 1 else 0) + CountBelow(edges[1..], m)
  }

  /** The insertion point `pd.cut` computes for `m`: the count of edges below
      it, with the lowest edge itself moved into the first interval
      (`include_lowest`). */
  function SearchLeft(m: int): (ids: nat)
    ensures ids <= |Edges|
  {
    if m == Edges[0] then 1 else CountBelow(Edges, m)
  }

  /** `pd.cut(m, Edges, include_lowest=True)` as an interval index: the interval
      that covers `m`, and none when `m` is below every edge or above them all. */
  function Bucket(m: int): (b: Option<nat>)
    ensures forall i :: b == Some(i) <==> InBucket(m, i)
    ensures b == None <==> m < Edges[0] || Edges[|Edges| - 1] < m
  {
    var ids := SearchLeft(m);
    SearchLeftCases(m);
    if ids == 0 || ids == |Edges| then None else Some(ids - 1)
  }

  /** The intended interval `i`: [0, 25k] for the first, (lo, hi] for the others. */
  predicate InBucket(m: int, i: int)
  {
    && 0 <= i < |Labels|
    && (if i == 0 then Edges[0] <= m else Edges[i] < m)
    && m <= Edges[i + 1]
  }

  /** Edges in strictly increasing order. */
  predicate Ascending(edges: seq<int>)
  {
    forall i, j :: 0 <= i < j < |edges| ==> edges[i] < edges[j]
  }

  /** No edge lies below a value at or under the lowest edge. */
  lemma {:induction false} NoneBelow(edges: seq<int>, m: int)
    requires Ascending(edges)
    requires edges == [] || m <= edges[0]
    ensures CountBelow(edges, m) == 0
    decreases |edges|
  {
    if edges != [] {
      if |edges| > 1 {
        assert edges[0] < edges[1];
      }
      NoneBelow(edges[1..], m);
    }
  }

  /** A value in (edges[j], edges[j + 1]] has exactly j + 1 edges below it. */
  lemma {:induction false} CountBetween(edges: seq<int>, m: int, j: nat)
    requires Ascending(edges) && j < |edges|
    requires edges[j] < m && (j + 1 == |edges| || m <= edges[j + 1])
    ensures CountBelow(edges, m) == j + 1
    decreases j
  {
    if j == 0 {
      NoneBelow(edges[1..], m);
    } else {
      assert edges[0] < edges[j];
      CountBetween(edges[1..], m, j - 1);
    }
  }

  /** More miles never have fewer edges below them. */
  lemma {:induction false} CountBelowMonotone(edges: seq<int>, m: int, n: int)
    requires m <= n
    ensures CountBelow(edges, m) <= CountBelow(edges, n)
    decreases |edges|
  {
    if edges != [] {
      CountBelowMonotone(edges[1..], m, n);
    }
  }

  lemma EdgesAscending()
    ensures Ascending(Edges)
  {
  }

  /** A mileage in interval `i` has `i + 1` edges at or below the insertion point. */
  lemma SearchLeftCovered(m: int, i: nat)
    requires InBucket(m, i)
    ensures SearchLeft(m) == i + 1
  {
    if m != Edges[0] {
      EdgesAscending();
      CountBetween(Edges, m, i);
    }
  }

  /** Below 0 the insertion point is before every edge, above 1,000,000 after all of them. */
  lemma SearchLeftOutside(m: int)
    requires m < Edges[0] || Edges[|Edges| - 1] < m
    ensures m < Edges[0] ==> SearchLeft(m) == 0
    ensures Edges[|Edges| - 1] < m ==> SearchLeft(m) == |Edges|
  {
    EdgesAscending();
    if m < Edges[0] {
      NoneBelow(Edges, m);
    } else {
      CountBetween(Edges, m, |Edges| - 1);
    }
  }

  /** The intervals cover [0, 1,000,000] without overlap: some interval covers
      every mileage in that range, and no other one does. */
  lemma CoveredOnce(m: int)
    requires Edges[0] <= m <= Edges[|Edges| - 1]
    ensures exists i :: InBucket(m, i)
    ensures forall i, k :: InBucket(m, i) && InBucket(m, k) ==> i == k
  {
    EdgesAscending();
    var i := 0;
    while i < |Labels| - 1 && Edges[i + 1] < m
      invariant 0 <= i < |Labels|
      invariant i == 0 || Edges[i] < m
      decreases |Labels| - i
    {
      i := i + 1;
    }
    assert InBucket(m, i);
  }

  /** The insertion point of every mileage: the interval that covers it plus
      one, or one of the two ends outside [0, 1,000,000]. */
  lemma SearchLeftCases(m: int)
    ensures m < Edges[0] ==> SearchLeft(m) == 0
    ensures Edges[|Edges| - 1] < m ==> SearchLeft(m) == |Edges|
    ensures Edges[0] <= m <= Edges[|Edges| - 1] ==> exists i :: InBucket(m, i)
    ensures forall i :: InBucket(m, i) ==> SearchLeft(m) == i + 1
  {
    if m < Edges[0] || Edges[|Edges| - 1] < m {
      SearchLeftOutside(m);
    } else {
      CoveredOnce(m);
    }
    forall i | InBucket(m, i) ensures SearchLeft(m) == i + 1 {
      SearchLeftCovered(m, i);
    }
  }

  /** A mileage exactly on an inner edge goes to the interval below it. */
  lemma EdgeGoesDown(k: nat)
    requires 0 < k < |Edges|
    ensures Bucket(Edges[k]) == Some(k - 1)
  {
    EdgesAscending();
    assert InBucket(Edges[k], k - 1);
  }

  /** Up to the ends, more miles never give a lower bucket. */
  lemma BucketMonotone(m: int, n: int)
    requires m <= n && Bucket(m) != None && Bucket(n) != None
    ensures Bucket(m).value <= Bucket(n).value
  {
    assert InBucket(m, Bucket(m).value) && InBucket(n, Bucket(n).value);
    EdgesAscending();
  }

  /** The group index of a row: its interval, or the "nan" group (index 8) when
      its mileage is missing or falls in no interval. */
  function GroupOf(r: Row): (g: nat)
    ensures g < Groups
  {
    match r.mileage
    case None => |Labels|
    case Some(m) =>
      match Bucket(m)
      case None => |Labels|
      case Some(i) => i
  }

  /** A row is in group `i < 8` exactly when its mileage lies in interval `i`,
      and in the "nan" group exactly when its mileage is missing or lies
      outside [0, 1,000,000]. */
  lemma GroupOfMeansInterval(r: Row)
    ensures forall i :: 0 <= i < |Labels| ==> (GroupOf(r) == i <==> r.mileage.Some? && InBucket(r.mileage.value, i))
    ensures GroupOf(r) == |Labels| <==> r.mileage == None || r.mileage.value < Edges[0] || Edges[|Edges| - 1] < r.mileage.value
  {
    forall i | 0 <= i < |Labels|
      ensures GroupOf(r) == i <==> r.mileage.Some? && InBucket(r.mileage.value, i)
    {
      if r.mileage.Some? {
        assert Bucket(r.mileage.value) == Some(i) <==> InBucket(r.mileage.value, i);
      }
    }
  }

  /** The string the bucket column holds for group `g`. */
  function LabelOf(g: nat): string
    requires g < Groups
  {
    if g < |Labels| then Labels[g] else NanLabel
  }

  /** Every mileage in [0, 25,000] is labelled "0–25k", every one in
      (300,000, 1,000,000] "300k+", and one outside [0, 1,000,000] "nan". */
  lemma EndLabels(r: Row)
    requires r.mileage != None
    ensures 0 <= r.mileage.value <= 25000 ==> LabelOf(GroupOf(r)) == "0–25k"
    ensures 300000 < r.mileage.value <= 1000000 ==> LabelOf(GroupOf(r)) == "300k+"
    ensures r.mileage.value < 0 || 1000000 < r.mileage.value ==> LabelOf(GroupOf(r)) == NanLabel
  {
    GroupOfMeansInterval(r);
  }

  /** `dropna(subset=["Mileage", "Price"])`: the rows with both numbers, in order. */
  function Clean(rows: seq<Row>): (r: seq<Row>)
    ensures IsSubsequence(r, rows)
    ensures forall x :: x in r <==> x in rows && x.mileage != None && x.price != None
  {
    if rows == [] then []
    else
      assert rows == [rows[0]] + rows[1..];
      if rows[0].mileage != None && rows[0].price != None then [rows[0]] + Clean(rows[1..])
      else Clean(rows[1..])
  }

  /** `rows[rows["Mileage"] <= cap]`: missing mileages compare false and are dropped. */
  function UnderCap(rows: seq<Row>, cap: int): (r: seq<Row>)
    ensures IsSubsequence(r, rows)
    ensures forall x :: x in r <==> x in rows && x.mileage != None && x.mileage.value <= cap
  {
    if rows == [] then []
    else
      assert rows == [rows[0]] + rows[1..];
      if rows[0].mileage != None && rows[0].mileage.value <= cap then [rows[0]] + UnderCap(rows[1..], cap)
      else UnderCap(rows[1..], cap)
  }

  /** `dropna` keeps every copy of a row with both numbers and no copy of any other row. */
  lemma {:induction false} CleanCounts(rows: seq<Row>)
    ensures forall x :: multiset(Clean(rows))[x] == if x.mileage != None && x.price != None then multiset(rows)[x] else 0
    decreases |rows|
  {
    if rows != [] {
      CleanCounts(rows[1..]);
      assert rows == [rows[0]] + rows[1..];
    }
  }

  /** The cap keeps every copy of a row whose mileage is present and at most the
      cap, and no copy of any other row. */
  lemma {:induction false} UnderCapCounts(rows: seq<Row>, cap: int)
    ensures forall x :: multiset(UnderCap(rows, cap))[x] == if x.mileage != None && x.mileage.value <= cap then multiset(rows)[x] else 0
    decreases |rows|
  {
    if rows != [] {
      UnderCapCounts(rows[1..], cap);
      assert rows == [rows[0]] + rows[1..];
    }
  }

  /** The rows bucketed, counted with repetition: every copy of a filtered row
      with both numbers and a mileage within the cap, and nothing else. */
  ghost predicate KeptExactly(kept: seq<Row>, filtered: seq<Row>, cap: int)
  {
    forall x :: multiset(kept)[x] ==
      if x.mileage != None && x.price != None && x.mileage.value <= cap then multiset(filtered)[x] else 0
  }

  /** Cleaning and then capping keeps exactly the rows `KeptExactly` describes. */
  lemma KeptCounts(filtered: seq<Row>, cap: int)
    ensures KeptExactly(UnderCap(Clean(filtered), cap), filtered, cap)
  {
    CleanCounts(filtered);
    UnderCapCounts(Clean(filtered), cap);
  }

  /** The positions of the rows that fall in group `g`. */
  ghost function Members(rows: seq<Row>, g: nat): set<int>
  {
    set i | 0 <= i < |rows| && GroupOf(rows[i]) == g
  }

  /** The number of rows in group `g`: the `n=("Price", "size")` column. */
  function CountIn(rows: seq<Row>, g: nat): (n: nat)
    ensures n == |Members(rows, g)|
    ensures n <= |rows|
    ensures n > 0 <==> exists x :: x in rows && GroupOf(x) == g
  {
    if rows == [] then
      assert Members(rows, g) == {};
      0
    else
      var init, last := rows[..|rows| - 1], rows[|rows| - 1];
      assert rows == init + [last];
      MembersOfInit(rows, g);
      CountIn(init, g) + (if GroupOf(last) == g then 1 else 0)
  }

  /** The group's positions in a table are its positions before the last row,
      plus the last one when that row is in the group. */
  lemma MembersOfInit(rows: seq<Row>, g: nat)
    requires rows != []
    ensures |Members(rows, g)| == |Members(rows[..|rows| - 1], g)| + (if GroupOf(rows[|rows| - 1]) == g then 1 else 0)
  {
    var init, k := rows[..|rows| - 1], |rows| - 1;
    var before := Members(init, g);
    forall i | 0 <= i < k
      ensures i in Members(rows, g) <==> i in before
    {
      assert init[i] == rows[i];
    }
    if GroupOf(rows[k]) == g {
      assert Members(rows, g) == before + {k};
    } else {
      assert Members(rows, g) == before;
    }
  }

  /** One bar of the chart: a bucket label and the number of rows behind it. */
  datatype Bar = Bar(name: string, n: nat)

  /** The non-empty groups from index `g` on, in display order. */
  function BarsFrom(rows: seq<Row>, g: nat): (bars: seq<Bar>)
    requires g <= Groups
    ensures forall b :: b in bars ==> b.n > 0 && exists k :: g <= k < Groups && b == Bar(LabelOf(k), CountIn(rows, k))
    decreases Groups - g
  {
    if g == Groups then []
    else
      var n := CountIn(rows, g);
      (if n > 0 then [Bar(LabelOf(g), n)] else []) + BarsFrom(rows, g + 1)
  }

  /** The per-bucket counts, ordered by the fixed label order with any "nan"
      group last. */
  function Bars(rows: seq<Row>): (bars: seq<Bar>)
    ensures forall b :: b in bars ==> b.n > 0 && exists g :: 0 <= g < Groups && b == Bar(LabelOf(g), CountIn(rows, g))
    ensures forall g :: 0 <= g < Groups ==> (Bar(LabelOf(g), CountIn(rows, g)) in bars <==> CountIn(rows, g) > 0)
  {
    BarsFromShape(rows, 0);
    BarsFrom(rows, 0)
  }

  /** The whole mileage section: no chart when no filtered row has both a
      Mileage and a Price, otherwise the bars of the rows under the cap. */
  function MileageChart(filtered: seq<Row>, cap: int): (chart: Option<seq<Bar>>)
    ensures chart == None <==> forall x :: x in filtered ==> x.mileage == None || x.price == None
    ensures chart != None ==> chart.value == Bars(UnderCap(Clean(filtered), cap))
  {
    var clean := Clean(filtered);
    if clean == [] then None
    else
      assert clean[0] in clean;
      Some(Bars(UnderCap(clean, cap)))
  }

  function Total(bars: seq<Bar>): nat
  {
    if bars == [] then 0 else bars[0].n + Total(bars[1..])
  }

  lemma {:induction false} TotalAppend(a: seq<Bar>, b: seq<Bar>)
    ensures Total(a + b) == Total(a) + Total(b)
    decreases |a|
  {
    if a == [] {
      assert a + b == b;
    } else {
      assert (a + b)[0] == a[0];
      assert (a + b)[1..] == a[1..] + b;
      TotalAppend(a[1..], b);
    }
  }

  /** The rows in groups `g` and above. */
  function CountFrom(rows: seq<Row>, g: nat): nat
  {
    if rows == [] then 0
    else CountFrom(rows[..|rows| - 1], g) + (if GroupOf(rows[|rows| - 1]) >= g then 1 else 0)
  }

  lemma {:induction false} CountFromSplits(rows: seq<Row>, g: nat)
    ensures CountFrom(rows, g) == CountIn(rows, g) + CountFrom(rows, g + 1)
    decreases |rows|
  {
    if rows != [] {
      CountFromSplits(rows[..|rows| - 1], g);
    }
  }

  lemma {:induction false} CountFromZero(rows: seq<Row>)
    ensures CountFrom(rows, 0) == |rows|
    decreases |rows|
  {
    if rows != [] {
      CountFromZero(rows[..|rows| - 1]);
    }
  }

  lemma {:induction false} BarsFromTotal(rows: seq<Row>, g: nat)
    requires g <= Groups
    ensures Total(BarsFrom(rows, g)) == CountFrom(rows, g)
    decreases Groups - g
  {
    if g == Groups {
      CountFromNone(rows);
    } else {
      var n := CountIn(rows, g);
      var head := if n > 0 then [Bar(LabelOf(g), n)] else [];
      var tail := BarsFrom(rows, g + 1);
      assert BarsFrom(rows, g) == head + tail;
      BarsFromTotal(rows, g + 1);
      TotalAppend(head, tail);
      assert Total(head) == n by {
        if n > 0 {
          assert head[1..] == [];
        }
      }
      CountFromSplits(rows, g);
    }
  }

  lemma {:induction false} CountFromNone(rows: seq<Row>)
    ensures CountFrom(rows, Groups) == 0
    decreases |rows|
  {
    if rows != [] {
      CountFromNone(rows[..|rows| - 1]);
    }
  }

  /** The bar counts add up to the number of rows bucketed. */
  lemma BarsCountEveryRow(rows: seq<Row>)
    ensures Total(Bars(rows)) == |rows|
  {
    BarsFromTotal(rows, 0);
    CountFromZero(rows);
  }

  /** The bar from group `g` on: one per non-empty group, labelled in order. */
  lemma {:induction false} BarsFromShape(rows: seq<Row>, g: nat)
    requires g <= Groups
    ensures forall b :: b in BarsFrom(rows, g) ==> b.n > 0
    ensures forall k :: g <= k < Groups ==> (Bar(LabelOf(k), CountIn(rows, k)) in BarsFrom(rows, g) <==> CountIn(rows, k) > 0)
    decreases Groups - g
  {
    if g < Groups {
      BarsFromShape(rows, g + 1);
      forall k | g <= k < Groups
        ensures Bar(LabelOf(k), CountIn(rows, k)) in BarsFrom(rows, g) <==> CountIn(rows, k) > 0
      {
        if k > g {
          LabelsDistinct(g, k);
        }
      }
    }
  }

  /** A proof device only: the length and first two characters of a label,
      which differ between any two of the nine label constants, so comparing
      them tells the labels apart without indexing past a label's end. */
  function Signature(s: string): (int, char, char)
  {
    (|s|, if |s| > 0 then s[0] else ' ', if |s| > 1 then s[1] else ' ')
  }

  /** Different groups carry different labels. */
  lemma LabelsDistinct(g: nat, k: nat)
    requires g < k < Groups
    ensures LabelOf(g) != LabelOf(k)
  {
    assert Signature(LabelOf(g)) != Signature(LabelOf(k));
  }

  /** Every group label, in the order the chart shows the bars. */
  function AllLabels(): (s: seq<string>)
    ensures |s| == Groups && forall g :: 0 <= g < Groups ==> s[g] == LabelOf(g)
  {
    Labels + [NanLabel]
  }

  function Names(bars: seq<Bar>): seq<string>
  {
    if bars == [] then [] else [bars[0].name] + Names(bars[1..])
  }

  lemma {:induction false} NamesAppend(a: seq<Bar>, b: seq<Bar>)
    ensures Names(a + b) == Names(a) + Names(b)
    decreases |a|
  {
    if a == [] {
      assert a + b == b;
    } else {
      assert (a + b)[0] == a[0];
      assert (a + b)[1..] == a[1..] + b;
      NamesAppend(a[1..], b);
    }
  }

  /** The bars from group `g` on follow the fixed label order. */
  lemma {:induction false} BarsFromInOrder(rows: seq<Row>, g: nat)
    requires g <= Groups
    ensures IsSubsequence(Names(BarsFrom(rows, g)), AllLabels()[g..])
    decreases Groups - g
  {
    var all := AllLabels();
    if g == Groups {
      assert Names(BarsFrom(rows, g)) == [];
    } else {
      var n := CountIn(rows, g);
      var head := if n > 0 then [Bar(LabelOf(g), n)] else [];
      var tail := BarsFrom(rows, g + 1);
      assert BarsFrom(rows, g) == head + tail;
      NamesAppend(head, tail);
      BarsFromInOrder(rows, g + 1);
      assert all[g..][0] == LabelOf(g) && all[g..][1..] == all[g + 1..];
      if n > 0 {
        assert Names(head) == [LabelOf(g)];
        assert Names(BarsFrom(rows, g)) == [LabelOf(g)] + Names(tail);
      } else {
        assert Names(head) == [];
        assert Names(BarsFrom(rows, g)) == Names(tail);
        SkipOne(Names(tail), all[g..]);
      }
    }
  }

  /** A subsequence of a list's tail is a subsequence of the list. */
  lemma SkipOne(a: seq<string>, b: seq<string>)
    requires b != [] && IsSubsequence(a, b[1..])
    ensures IsSubsequence(a, b)
  {
  }

  /** The chart's bars, in the fixed label order, with "nan" last. */
  lemma BarsInLabelOrder(rows: seq<Row>)
    ensures IsSubsequence(Names(Bars(rows)), AllLabels())
  {
    BarsFromInOrder(rows, 0);
    assert AllLabels()[0..] == AllLabels();
  }

  /** The mileage section end to end: no chart exactly when no filtered row
      has both a Mileage and a Price; otherwise the bars count precisely the
      rows with both numbers and a mileage within the cap (every copy of such
      a row, and nothing else), one bar per non-empty group, the counts adding
      up to the number of those rows. */
  lemma ChartCountsKeptRows(filtered: seq<Row>, cap: int)
    ensures MileageChart(filtered, cap) == None <==>
              forall x :: x in filtered ==> x.mileage == None || x.price == None
    ensures var kept := UnderCap(Clean(filtered), cap);
            && (forall x :: x in kept <==> x in filtered && x.mileage != None && x.price != None && x.mileage.value <= cap)
            && KeptExactly(kept, filtered, cap)
            && (MileageChart(filtered, cap) != None ==>
                  var bars := MileageChart(filtered, cap).value;
                  && Total(bars) == |kept|
                  && (forall b :: b in bars ==> b.n > 0)
                  && (forall g :: 0 <= g < Groups ==>
                        (Bar(LabelOf(g), CountIn(kept, g)) in bars <==> exists x :: x in kept && GroupOf(x) == g)))
  {
    var clean := Clean(filtered);
    if clean != [] {
      var x := clean[0];
      assert x in clean;
    }
    var kept := UnderCap(clean, cap);
    KeptCounts(filtered, cap);
    BarsCountEveryRow(kept);
    BarsFromShape(kept, 0);
  }
}
