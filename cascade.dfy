/** The synced multi-select sidebar: for each dimension in cascade order, the
    offered options are the sorted distinct non-missing values of the view
    narrowed by every earlier selection, the stored selection is reconciled
    against them, and the view is narrowed by the (possibly empty = "All")
    selection. */
module Cascade {
  import opened Rows

  /** Sorted ascending without duplicates. */
  predicate StrictlyIncreasing(s: seq<Key>)
  {
    forall i, j :: 0 <= i < j < |s| ==> s[i] < s[j]
  }

  /** Adds `v` to a strictly increasing list, keeping it strictly increasing. */
  function InsertSorted(s: seq<Key>, v: Key): (r: seq<Key>)
    requires StrictlyIncreasing(s)
    ensures StrictlyIncreasing(r)
    ensures forall x :: x in r <==> x == v || x in s
  {
    if s == [] then [v]
    else if v < s[0] then [v] + s
    else if v == s[0] then s
    else
      var rest := InsertSorted(s[1..], v);
      assert forall x :: x in rest ==> s[0] < x by {
        assert forall j :: 1 <= j < |s| ==> s[0] < s[j];
      }
      SmallerFirst(s[0], rest);
      [s[0]] + rest
  }

  /** A value below every element of a strictly increasing list may head it. */
  lemma SmallerFirst(x: Key, s: seq<Key>)
    requires StrictlyIncreasing(s) && forall y :: y in s ==> x < y
    ensures StrictlyIncreasing([x] + s)
  {
    forall i, j | 0 <= i < j < |[x] + s| ensures ([x] + s)[i] < ([x] + s)[j] {
      if i == 0 {
        assert ([x] + s)[j] == s[j - 1] && s[j - 1] in s;
      }
    }
  }

  /** `sorted(col.dropna().unique().tolist())`: the options a widget offers. */
  function Candidates(col: seq<Option<Key>>): (c: seq<Key>)
    ensures StrictlyIncreasing(c)
    ensures forall v :: v in c <==> Some(v) in col
  {
    if col == [] then []
    else match col[0]
      case None => Candidates(col[1..])
      case Some(v) => InsertSorted(Candidates(col[1..]), v)
  }

  /** `[m for m in stored if m in cands]`: the stored selection with every value
      that is no longer offered silently dropped. */
  function Reconcile(stored: seq<Key>, cands: seq<Key>): (r: seq<Key>)
    ensures IsSubsequence(r, stored)
    ensures forall x :: x in r <==> x in stored && x in cands
  {
    if stored == [] then []
    else
      assert stored == [stored[0]] + stored[1..];
      if stored[0] in cands then [stored[0]] + Reconcile(stored[1..], cands)
      else Reconcile(stored[1..], cands)
  }

  /** Reconciling keeps every occurrence of an offered value (duplicates
      included) and none of a value no longer offered. */
  lemma {:induction false} ReconcileKeepsCounts(stored: seq<Key>, cands: seq<Key>)
    ensures forall x :: multiset(Reconcile(stored, cands))[x] == if x in cands then multiset(stored)[x] else 0
    decreases |stored|
  {
    if stored != [] {
      ReconcileKeepsCounts(stored[1..], cands);
      assert stored == [stored[0]] + stored[1..];
    }
  }

  /** Reconciling an already reconciled selection changes nothing. */
  lemma {:induction false} ReconcileIdempotent(stored: seq<Key>, cands: seq<Key>)
    ensures Reconcile(Reconcile(stored, cands), cands) == Reconcile(stored, cands)
    decreases |stored|
  {
    if stored != [] {
      ReconcileIdempotent(stored[1..], cands);
      if stored[0] in cands {
        var r := Reconcile(stored, cands);
        assert r[0] == stored[0] && r[1..] == Reconcile(stored[1..], cands);
      }
    }
  }

  /** `v` passes the `isin(sel)` mask: it is present and among the selected values. */
  predicate InSelection(sel: seq<Key>, v: Option<Key>)
  {
    v.Some? && v.value in sel
  }

  /** `v` passes a filter step: an empty selection means "All". */
  predicate Admits(sel: seq<Key>, v: Option<Key>)
  {
    sel == [] || InSelection(sel, v)
  }

  /** `rows[rows[d].isin(sel)]`: the rows whose `d` value is selected, in order. */
  function IsIn(rows: seq<Row>, d: Dim, sel: seq<Key>): (r: seq<Row>)
    ensures IsSubsequence(r, rows)
  {
    if rows == [] then []
    else
      assert rows == [rows[0]] + rows[1..];
      if InSelection(sel, Field(rows[0], d)) then [rows[0]] + IsIn(rows[1..], d, sel)
      else IsIn(rows[1..], d, sel)
  }

  /** `if sel: rows = rows[rows[d].isin(sel)]`: one filter step. */
  function FilterBy(rows: seq<Row>, d: Dim, sel: seq<Key>): (r: seq<Row>)
    ensures IsSubsequence(r, rows)
    ensures sel == [] ==> r == rows
  {
    if sel == [] then SubsequenceOfItself(rows); rows else IsIn(rows, d, sel)
  }

  /** `isin` keeps every copy of a selected row and drops every other row. */
  lemma {:induction false} IsInCounts(rows: seq<Row>, d: Dim, sel: seq<Key>)
    ensures forall x :: multiset(IsIn(rows, d, sel))[x] == if InSelection(sel, Field(x, d)) then multiset(rows)[x] else 0
    decreases |rows|
  {
    if rows != [] {
      IsInCounts(rows[1..], d, sel);
      assert rows == [rows[0]] + rows[1..];
    }
  }

  /** A filter step keeps every copy of an admitted row and drops every other row. */
  lemma FilterByCounts(rows: seq<Row>, d: Dim, sel: seq<Key>)
    ensures forall x :: multiset(FilterBy(rows, d, sel))[x] == if Admits(sel, Field(x, d)) then multiset(rows)[x] else 0
  {
    if sel != [] {
      IsInCounts(rows, d, sel);
    }
  }

  /** One filter step on a table with a known first row. */
  lemma FilterByCons(x: Row, rows: seq<Row>, d: Dim, sel: seq<Key>)
    ensures FilterBy([x] + rows, d, sel) == (if Admits(sel, Field(x, d)) then [x] else []) + FilterBy(rows, d, sel)
  {
    assert ([x] + rows)[0] == x && ([x] + rows)[1..] == rows;
  }


  /** A row satisfies every selection: AND across dimensions, OR within one. */
  predicate MatchesAll(x: Row, sels: seq<seq<Key>>)
    requires |sels| <= |Order|
  {
    forall i :: 0 <= i < |sels| ==> Admits(sels[i], Field(x, Order[i]))
  }

  /** The filtered subset: the rows that satisfy every selection, in dataset order. */
  function Conjunctive(rows: seq<Row>, sels: seq<seq<Key>>): (r: seq<Row>)
    requires |sels| <= |Order|
    ensures IsSubsequence(r, rows)
    ensures forall x :: x in r <==> x in rows && MatchesAll(x, sels)
  {
    if rows == [] then []
    else
      assert rows == [rows[0]] + rows[1..];
      if MatchesAll(rows[0], sels) then [rows[0]] + Conjunctive(rows[1..], sels)
      else Conjunctive(rows[1..], sels)
  }

  /** The filtered subset keeps every copy of a matching row and drops every other row. */
  lemma {:induction false} ConjunctiveCounts(rows: seq<Row>, sels: seq<seq<Key>>)
    requires |sels| <= |Order|
    ensures forall x :: multiset(Conjunctive(rows, sels))[x] == if MatchesAll(x, sels) then multiset(rows)[x] else 0
    decreases |rows|
  {
    if rows != [] {
      ConjunctiveCounts(rows[1..], sels);
      assert rows == [rows[0]] + rows[1..];
    }
  }

  /** With every selection empty ("All" everywhere) the filtered subset is the whole dataset. */
  lemma {:induction false} AllEmptyKeepsEverything(rows: seq<Row>, sels: seq<seq<Key>>)
    requires |sels| <= |Order|
    requires forall i :: 0 <= i < |sels| ==> sels[i] == []
    ensures Conjunctive(rows, sels) == rows
    decreases |rows|
  {
    if rows != [] {
      AllEmptyKeepsEverything(rows[1..], sels);
    }
  }

  /** Narrowing by one more selection is the conjunction with one more clause. */
  lemma {:induction false} FilterConjunctive(rows: seq<Row>, sels: seq<seq<Key>>, last: seq<Key>)
    requires |sels| < |Order|
    ensures FilterBy(Conjunctive(rows, sels), Order[|sels|], last) == Conjunctive(rows, sels + [last])
    decreases |rows|
  {
    var all := sels + [last];
    var d := Order[|sels|];
    if rows != [] {
      var x, tail := rows[0], rows[1..];
      assert rows == [x] + tail;
      var c := Conjunctive(tail, sels);
      FilterConjunctive(tail, sels, last);
      ConjunctiveCons(x, tail, sels);
      ConjunctiveCons(x, tail, all);
      MatchesOneMore(x, sels, last);
      if MatchesAll(x, sels) {
        FilterByCons(x, c, d, last);
      }
    }
  }

  /** A row satisfies one more selection iff it satisfies the earlier ones and that one. */
  lemma MatchesOneMore(x: Row, sels: seq<seq<Key>>, last: seq<Key>)
    requires |sels| < |Order|
    ensures MatchesAll(x, sels + [last]) <==> MatchesAll(x, sels) && Admits(last, Field(x, Order[|sels|]))
  {
    var all := sels + [last];
    assert forall i :: 0 <= i < |sels| ==> all[i] == sels[i];
    assert all[|sels|] == last;
  }

  /** The filtered subset of a table with a known first row. */
  lemma ConjunctiveCons(x: Row, rows: seq<Row>, sels: seq<seq<Key>>)
    requires |sels| <= |Order|
    ensures Conjunctive([x] + rows, sels) == (if MatchesAll(x, sels) then [x] else []) + Conjunctive(rows, sels)
  {
    assert ([x] + rows)[0] == x && ([x] + rows)[1..] == rows;
  }

  /** The running view `tmp`: `rows` narrowed in cascade order by the first
      |sels| selections; it keeps rows of the table in their order. */
  function Narrow(rows: seq<Row>, sels: seq<seq<Key>>): (view: seq<Row>)
    requires |sels| <= |Order|
    ensures IsSubsequence(view, rows)
  {
    if sels == [] then
      SubsequenceOfItself(rows);
      rows
    else
      var before := Narrow(rows, sels[..|sels| - 1]);
      var view := FilterBy(before, Order[|sels| - 1], sels[|sels| - 1]);
      SubsequenceTransitive(view, before, rows);
      view
  }

  /** The running view after k narrowings equals the filtered subset for those k selections. */
  lemma {:induction false} NarrowIsConjunctive(rows: seq<Row>, sels: seq<seq<Key>>)
    requires |sels| <= |Order|
    ensures Narrow(rows, sels) == Conjunctive(rows, sels)
    decreases |sels|
  {
    if sels == [] {
      AllEmptyKeepsEverything(rows, sels);
    } else {
      var init := sels[..|sels| - 1];
      NarrowIsConjunctive(rows, init);
      FilterConjunctive(rows, init, sels[|sels| - 1]);
      assert init + [sels[|sels| - 1]] == sels;
    }
  }

  /** Narrowing by the first i + 1 selections is one filter step after the first i. */
  lemma NarrowStep(rows: seq<Row>, sels: seq<seq<Key>>, i: nat)
    requires i < |sels| <= |Order|
    ensures Narrow(rows, sels[..i + 1]) == FilterBy(Narrow(rows, sels[..i]), Order[i], sels[i])
  {
    assert sels[..i + 1][..i] == sels[..i];
  }

  /** app.py lines 99-113: `filtered` rebound by each non-empty selection in turn. */
  method ApplyFilters(data: seq<Row>, sels: seq<seq<Key>>) returns (filtered: seq<Row>)
    requires |sels| == |Order|
    ensures filtered == Conjunctive(data, sels)
  {
    filtered := data;
    var i := 0;
    while i < |sels|
      invariant 0 <= i <= |sels|
      invariant filtered == Narrow(data, sels[..i])
    {
      NarrowStep(data, sels, i);
      if sels[i] != [] {
        filtered := IsIn(filtered, Order[i], sels[i]);
      }
      i := i + 1;
    }
    assert sels[..i] == sels;
    NarrowIsConjunctive(data, sels);
  }

  // ---------------------------------------------------------------------------
  // The cascade as a function of the dataset and the stored selections

  /** `st.session_state.get(key, [])` for the widget of dimension `d`. */
  function StoredAt(stored: map<Dim, seq<Key>>, d: Dim): seq<Key>
  {
    if d in stored then stored[d] else []
  }

  /** The selection a widget ends up with: Brand is taken as stored, every other
      dimension is reconciled against its options. */
  function Settle(d: Dim, stored: seq<Key>, cands: seq<Key>): seq<Key>
  {
    if d == Brand then stored else Reconcile(stored, cands)
  }

  /** The settled selections of the first k dimensions in cascade order. */
  function Selections(data: seq<Row>, stored: map<Dim, seq<Key>>, k: nat): (sels: seq<seq<Key>>)
    requires k <= |Order|
    ensures |sels| == k
  {
    if k == 0 then []
    else
      var prev := Selections(data, stored, k - 1);
      var d := Order[k - 1];
      prev + [Settle(d, StoredAt(stored, d), Candidates(Column(Narrow(data, prev), d)))]
  }

  /** The options offered for the k-th dimension: the sorted distinct values of
      its field among the rows that pass every earlier settled selection. */
  function OptionsAt(data: seq<Row>, stored: map<Dim, seq<Key>>, k: nat): (c: seq<Key>)
    requires k < |Order|
    ensures StrictlyIncreasing(c)
  {
    Candidates(Column(Narrow(data, Selections(data, stored, k)), Order[k]))
  }

  /** The options of the k-th dimension are the values its field takes among the
      rows of the dataset that pass every earlier settled selection; Brand
      offers every brand of the dataset. */
  lemma OptionsAtMembers(data: seq<Row>, stored: map<Dim, seq<Key>>, k: nat)
    requires k < |Order|
    ensures forall v :: v in OptionsAt(data, stored, k) <==>
      exists r :: r in data && MatchesAll(r, Selections(data, stored, k)) && Field(r, Order[k]) == Some(v)
    ensures k == 0 ==> forall v :: v in OptionsAt(data, stored, k) <==> exists r :: r in data && r.brand == Some(v)
  {
    var view := Narrow(data, Selections(data, stored, k));
    NarrowIsConjunctive(data, Selections(data, stored, k));
    forall v ensures Some(v) in Column(view, Order[k]) <==> exists r :: r in view && Field(r, Order[k]) == Some(v) {
      ColumnHas(view, Order[k], Some(v));
    }
  }

  /** The settled selection of the k-th dimension. */
  function SelectionAt(data: seq<Row>, stored: map<Dim, seq<Key>>, k: nat): (s: seq<Key>)
    requires k < |Order|
    ensures k == 0 ==> s == StoredAt(stored, Brand)
    ensures k > 0 ==> forall x :: x in s <==> x in StoredAt(stored, Order[k]) && x in OptionsAt(data, stored, k)
    ensures k > 0 ==> IsSubsequence(s, StoredAt(stored, Order[k]))
  {
    SelectionStep(data, stored, k);
    Selections(data, stored, k + 1)[k]
  }

  /** Settling dimension k appends its selection, reconciled against its options. */
  lemma SelectionStep(data: seq<Row>, stored: map<Dim, seq<Key>>, k: nat)
    requires k < |Order|
    ensures Selections(data, stored, k + 1) ==
      Selections(data, stored, k) + [Settle(Order[k], StoredAt(stored, Order[k]), OptionsAt(data, stored, k))]
  {
  }

  /** What the session holds after a run: every widget key set to the settled
      selection of its dimension (`SettledKey`). */
  function Settled(data: seq<Row>, stored: map<Dim, seq<Key>>): (s: map<Dim, seq<Key>>)
    ensures forall d :: d in s
  {
    EveryDimensionInOrder();
    map d | d in Order :: Selections(data, stored, |Order|)[Rank(d)]
  }

  /** Every widget key holds the settled selection of its dimension, the one
      computed when the cascade reached it. */
  lemma SettledKey(data: seq<Row>, stored: map<Dim, seq<Key>>, d: Dim)
    ensures d in Settled(data, stored)
    ensures Settled(data, stored)[d] == SelectionAt(data, stored, Rank(d))
  {
    var k := Rank(d);
    assert Settled(data, stored)[d] == Selections(data, stored, |Order|)[k];
    SettledAtRank(data, stored, k);
  }

  /** The k-th of all seven settled selections is the one the cascade computed
      when it reached dimension k. */
  lemma SettledAtRank(data: seq<Row>, stored: map<Dim, seq<Key>>, k: nat)
    requires k < |Order|
    ensures Selections(data, stored, |Order|)[k] == Selections(data, stored, k + 1)[k]
  {
    var sels := Selections(data, stored, |Order|);
    SelectionsPrefix(data, stored, k + 1, |Order|);
    assert sels[..k + 1][k] == sels[k];
  }

  /** Settled selections are stable: the first k of the first m are the first k. */
  lemma {:induction false} SelectionsPrefix(data: seq<Row>, stored: map<Dim, seq<Key>>, k: nat, m: nat)
    requires k <= m <= |Order|
    ensures Selections(data, stored, m)[..k] == Selections(data, stored, k)
    decreases m
  {
    if k < m {
      SelectionsPrefix(data, stored, k, m - 1);
      SelectionsGrow(data, stored, k, m);
    } else {
      var s := Selections(data, stored, m);
      assert s[..m] == s;
    }
  }

  /** A prefix of the first m - 1 settled selections is a prefix of the first m. */
  lemma SelectionsGrow(data: seq<Row>, stored: map<Dim, seq<Key>>, k: nat, m: nat)
    requires k < m <= |Order|
    requires Selections(data, stored, m - 1)[..k] == Selections(data, stored, k)
    ensures Selections(data, stored, m)[..k] == Selections(data, stored, k)
  {
    var s := Selections(data, stored, m);
    SelectionsExtend(data, stored, m);
    assert s[..k] == s[..m - 1][..k];
  }

  /** The first m settled selections extend the first m - 1. */
  lemma SelectionsExtend(data: seq<Row>, stored: map<Dim, seq<Key>>, m: nat)
    requires 0 < m <= |Order|
    ensures Selections(data, stored, m)[..m - 1] == Selections(data, stored, m - 1)
  {
    var prev := Selections(data, stored, m - 1);
    assert Selections(data, stored, m) == prev + [Selections(data, stored, m)[m - 1]];
  }


}
