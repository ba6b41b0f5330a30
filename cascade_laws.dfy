/** Properties of the cascade as a whole: what each dimension's options depend
    on, how narrowing an earlier selection affects later options, what an
    emptied view does downstream, and that a second run changes nothing. */
module CascadeLaws {
  import opened Rows
  import opened Cascade

  /** The selections and options of the first k dimensions depend only on what is
      stored for those k dimensions: Model on Brand only, Year on Brand and Model, ... */
  lemma {:induction false} OptionsDependOnlyOnEarlier(data: seq<Row>, s1: map<Dim, seq<Key>>, s2: map<Dim, seq<Key>>, k: nat)
    requires k <= |Order|
    requires forall i :: 0 <= i < k ==> StoredAt(s1, Order[i]) == StoredAt(s2, Order[i])
    ensures Selections(data, s1, k) == Selections(data, s2, k)
    ensures k < |Order| ==> OptionsAt(data, s1, k) == OptionsAt(data, s2, k)
    decreases k
  {
    if k > 0 {
      OptionsDependOnlyOnEarlier(data, s1, s2, k - 1);
    }
  }

  /** `a` restricts at least as much as `b`: `b` is "All", or `a` is a non-empty
      subset of `b`. */
  predicate Narrower(a: seq<Key>, b: seq<Key>)
  {
    b == [] || (a != [] && forall x :: x in a ==> x in b)
  }

  /** Candidates of a table whose rows all occur in a second table are
      candidates of the second table. */
  lemma CandidatesOfFewerRows(small: seq<Row>, large: seq<Row>, d: Dim)
    requires forall r :: r in small ==> r in large
    ensures forall v :: v in Candidates(Column(small, d)) ==> v in Candidates(Column(large, d))
  {
    forall v | v in Candidates(Column(small, d))
      ensures v in Candidates(Column(large, d))
    {
      ColumnHas(small, d, Some(v));
      ColumnHas(large, d, Some(v));
    }
  }

  /** A row that passes narrower selections passes the wider ones. */
  lemma MatchesWider(r: Row, wide: seq<seq<Key>>, tight: seq<seq<Key>>)
    requires |wide| == |tight| <= |Order|
    requires forall i :: 0 <= i < |wide| ==> Narrower(tight[i], wide[i])
    requires MatchesAll(r, tight)
    ensures MatchesAll(r, wide)
  {
    forall i | 0 <= i < |wide| ensures Admits(wide[i], Field(r, Order[i])) {
      assert Admits(tight[i], Field(r, Order[i]));
      if wide[i] != [] {
        var v := Field(r, Order[i]).value;
        assert v in tight[i];
      }
    }
  }

  /** Narrowing selections can only remove rows from the running view. */
  lemma NarrowerSelectionsShrinkView(data: seq<Row>, wide: seq<seq<Key>>, tight: seq<seq<Key>>)
    requires |wide| == |tight| <= |Order|
    requires forall i :: 0 <= i < |wide| ==> Narrower(tight[i], wide[i])
    ensures forall r :: r in Narrow(data, tight) ==> r in Narrow(data, wide)
  {
    NarrowIsConjunctive(data, wide);
    NarrowIsConjunctive(data, tight);
    forall r | r in Conjunctive(data, tight) ensures r in Conjunctive(data, wide) {
      MatchesWider(r, wide, tight);
    }
  }

  /** With the other selections held fixed, narrowing any selections can only
      remove options of a later dimension, never add one. */
  lemma NarrowerSelectionsShrinkOptions(data: seq<Row>, wide: seq<seq<Key>>, tight: seq<seq<Key>>, d: Dim)
    requires |wide| == |tight| <= |Order|
    requires forall i :: 0 <= i < |wide| ==> Narrower(tight[i], wide[i])
    ensures forall v :: v in Candidates(Column(Narrow(data, tight), d)) ==> v in Candidates(Column(Narrow(data, wide), d))
  {
    NarrowerSelectionsShrinkView(data, wide, tight);
    CandidatesOfFewerRows(Narrow(data, tight), Narrow(data, wide), d);
  }

  /** A small table on which the cascade itself is not monotone. */
  function Car(brand: Key, model: Key, year: Key): Row
  {
    Row(Some(brand), Some(model), Some(year), None, None, None, None, None, None)
  }

  /** Three cars: brand 1 has models 10 (2020) and 11 (2021), brand 2 has model 12 (2022). */
  predicate IsSample(data: seq<Row>)
  {
    |data| == 3 && data[0] == Car(1, 10, 2020) && data[1] == Car(1, 11, 2021) && data[2] == Car(2, 12, 2022)
  }

  lemma SampleMember(data: seq<Row>, r: Row)
    requires IsSample(data) && r in data
    ensures r == data[0] || r == data[1] || r == data[2]
  {
  }

  /** A row whose value passes a filter step stays in the view. */
  lemma KeptRow(rows: seq<Row>, d: Dim, sel: seq<Key>, x: Row)
    requires x in rows && Admits(sel, Field(x, d))
    ensures x in FilterBy(rows, d, sel)
  {
    FilterByCounts(rows, d, sel);
    assert multiset(FilterBy(rows, d, sel))[x] == multiset(rows)[x];
  }

  /** A value carried by some row of the view is offered. */
  lemma Offered(rows: seq<Row>, d: Dim, x: Row, v: Key)
    requires x in rows && Field(x, d) == Some(v)
    ensures v in Candidates(Column(rows, d))
  {
    ColumnHas(rows, d, Some(v));
  }

  /** app.py lines 23-34: Brand offers every brand of the dataset and keeps its stored
      selection as is; Model offers the models of the selected brands (all
      models when none is selected) and reconciles against them. */
  lemma BrandThenModel(data: seq<Row>, stored: map<Dim, seq<Key>>)
    ensures OptionsAt(data, stored, 0) == Candidates(Column(data, Brand))
    ensures OptionsAt(data, stored, 1) == Candidates(Column(FilterBy(data, Brand, StoredAt(stored, Brand)), Model))
    ensures Selections(data, stored, 2) == [StoredAt(stored, Brand), Reconcile(StoredAt(stored, Model), OptionsAt(data, stored, 1))]
  {
    var one := Selections(data, stored, 1);
    assert one == [StoredAt(stored, Brand)];
    assert one[..0] == [];
    var view := Narrow(data, one);
    assert view == FilterBy(data, Brand, StoredAt(stored, Brand));
    assert Order[1] == Model;
  }

  /** With Brand {1, 2}, the stored Model {12} survives reconciliation. */
  lemma SampleWideSelections(data: seq<Row>, stored: map<Dim, seq<Key>>)
    requires IsSample(data) && stored == map[Brand := [1, 2], Model := [12]]
    ensures Selections(data, stored, 2) == [[1, 2], [12]]
  {
    BrandThenModel(data, stored);
    var view := FilterBy(data, Brand, [1, 2]);
    KeptRow(data, Brand, [1, 2], data[2]);
    Offered(view, Model, data[2], 12);
    ReconcileOne(12, OptionsAt(data, stored, 1));
  }

  /** With Brand {1}, the stored Model {12} is dropped. */
  lemma SampleTightSelections(data: seq<Row>, stored: map<Dim, seq<Key>>)
    requires IsSample(data) && stored == map[Brand := [1], Model := [12]]
    ensures Selections(data, stored, 2) == [[1], []]
  {
    BrandThenModel(data, stored);
    assert StoredAt(stored, Brand) == [1];
    var view := FilterBy(data, Brand, [1]);
    FilterByCounts(data, Brand, [1]);
    assert OptionsAt(data, stored, 1) == Candidates(Column(view, Model));
    assert 12 !in Candidates(Column(view, Model)) by {
      ColumnHas(view, Model, Some(12));
      forall r | r in view ensures r.model != Some(12) {
        assert multiset(view)[r] > 0;
        assert Admits([1], Field(r, Brand));
        assert r.brand == Some(1);
        SampleMember(data, r);
      }
    }
    ReconcileOne(12, OptionsAt(data, stored, 1));
    assert StoredAt(stored, Model) == [12];
    assert Reconcile(StoredAt(stored, Model), OptionsAt(data, stored, 1)) == [];
  }

  lemma ReconcileOne(x: Key, cands: seq<Key>)
    ensures Reconcile([x], cands) == if x in cands then [x] else []
  {
    assert [x][1..] == [];
  }

  /** Year's options in terms of the first two settled selections. */
  lemma YearOptions(data: seq<Row>, stored: map<Dim, seq<Key>>, sels: seq<seq<Key>>, v: Key)
    requires Selections(data, stored, 2) == sels
    ensures v in OptionsAt(data, stored, 2) <==> exists r :: r in data && MatchesAll(r, sels) && r.year == Some(v)
  {
    OptionsAtMembers(data, stored, 2);
    assert Order[2] == Year;
  }

  /** No sample car of model 12 is from 2020. */
  lemma SampleWideYears(data: seq<Row>, stored: map<Dim, seq<Key>>)
    requires IsSample(data) && stored == map[Brand := [1, 2], Model := [12]]
    ensures 2020 !in OptionsAt(data, stored, 2)
  {
    var sels := [[1, 2], [12]];
    SampleWideSelections(data, stored);
    YearOptions(data, stored, sels, 2020);
    forall r | r in data && MatchesAll(r, sels) ensures r.year != Some(2020) {
      assert Admits(sels[1], Field(r, Order[1]));
      ModelTwelve(data, r);
    }
  }

  /** The only sample car of model 12 is from 2022. */
  lemma ModelTwelve(data: seq<Row>, r: Row)
    requires IsSample(data) && r in data && Admits([12], Field(r, Order[1]))
    ensures r.year != Some(2020)
  {
    assert Order[1] == Model;
    SampleMember(data, r);
  }

  /** The car of brand 1, model 10 from 2020 passes Brand {1} with Model "All". */
  lemma SampleTightYears(data: seq<Row>, stored: map<Dim, seq<Key>>)
    requires IsSample(data) && stored == map[Brand := [1], Model := [12]]
    ensures 2020 in OptionsAt(data, stored, 2)
  {
    SampleTightSelections(data, stored);
    YearOptions(data, stored, [[1], []], 2020);
    var r := data[0];
    assert r in data && r.year == Some(2020);
    assert MatchesAll(r, [[1], []]) by {
      assert Order[0] == Brand;
    }
  }

  /** Narrowing Brand from {1, 2} to {1} drops the stored Model {12} (a model of
      brand 2), which then means "All" models of brand 1, and Year gains the
      option 2020 it did not have before. */
  lemma ReconciliationCanWidenLaterOptions(data: seq<Row>)
    requires IsSample(data)
    ensures var wide := map[Brand := [1, 2], Model := [12]];
            var tight := map[Brand := [1], Model := [12]];
            && Narrower(StoredAt(tight, Brand), StoredAt(wide, Brand))
            && StoredAt(tight, Model) == StoredAt(wide, Model)
            && 2020 !in OptionsAt(data, wide, 2)
            && 2020 in OptionsAt(data, tight, 2)
  {
    SampleWideYears(data, map[Brand := [1, 2], Model := [12]]);
    SampleTightYears(data, map[Brand := [1], Model := [12]]);
  }

  /** A row that passes a list of selections passes any prefix of it. */
  lemma MatchesPrefix(r: Row, early: seq<seq<Key>>, late: seq<seq<Key>>)
    requires |early| <= |late| <= |Order|
    requires late[..|early|] == early
    requires MatchesAll(r, late)
    ensures MatchesAll(r, early)
  {
    forall i | 0 <= i < |early| ensures Admits(early[i], Field(r, Order[i])) {
      assert early[i] == late[i];
    }
  }

  /** Once the running view is empty, every later dimension offers nothing and
      every later stored selection reconciles to nothing. */
  lemma EmptyViewEmptiesDownstream(data: seq<Row>, stored: map<Dim, seq<Key>>, k: nat, j: nat)
    requires k <= j < |Order|
    requires Narrow(data, Selections(data, stored, k)) == []
    ensures OptionsAt(data, stored, j) == []
    ensures j > 0 ==> SelectionAt(data, stored, j) == []
  {
    var early, late := Selections(data, stored, k), Selections(data, stored, j);
    NarrowIsConjunctive(data, early);
    var opts := OptionsAt(data, stored, j);
    assert forall v :: v !in opts by {
      assert forall r :: r in data ==> !MatchesAll(r, late) by {
        SelectionsPrefix(data, stored, k, j);
        forall r | r in data && MatchesAll(r, late) ensures false {
          MatchesPrefix(r, early, late);
        }
      }
      OptionsAtMembers(data, stored, j);
    }
    NoMembersMeansEmpty(opts);
    if j > 0 {
      NoMembersMeansEmpty(SelectionAt(data, stored, j));
    }
  }

  lemma NoMembersMeansEmpty(s: seq<Key>)
    ensures (forall v :: v !in s) ==> s == []
  {
    if s != [] {
      var v := s[0];
      assert v in s;
    }
  }

  /** Settling an already settled selection changes nothing. */
  lemma SettleIdempotent(d: Dim, stored: seq<Key>, cands: seq<Key>)
    ensures Settle(d, Settle(d, stored, cands), cands) == Settle(d, stored, cands)
  {
    if d != Brand {
      ReconcileIdempotent(stored, cands);
    }
  }

  lemma {:induction false} SettledSelectionsStable(data: seq<Row>, stored: map<Dim, seq<Key>>, k: nat)
    requires k <= |Order|
    ensures Selections(data, Settled(data, stored), k) == Selections(data, stored, k)
    decreases k
  {
    if k > 0 {
      SettledSelectionsStable(data, stored, k - 1);
      var d := Order[k - 1];
      RankOfOrder(k - 1);
      var prev := Selections(data, stored, k - 1);
      SettledKey(data, stored, d);
      assert StoredAt(Settled(data, stored), d) == Selections(data, stored, k)[k - 1];
      SettleIdempotent(d, StoredAt(stored, d), Candidates(Column(Narrow(data, prev), d)));
    }
  }

  /** A second run with no new user input reproduces the same options and
      selections: the cascade does not drift. */
  lemma RerunIdempotent(data: seq<Row>, stored: map<Dim, seq<Key>>)
    ensures Settled(data, Settled(data, stored)) == Settled(data, stored)
    ensures forall k :: 0 <= k < |Order| ==> OptionsAt(data, Settled(data, stored), k) == OptionsAt(data, stored, k)
  {
    forall k | 0 <= k < |Order|
      ensures OptionsAt(data, Settled(data, stored), k) == OptionsAt(data, stored, k)
    {
      RerunSameOptions(data, stored, k);
    }
    SettledTwice(data, stored);
  }

  /** Settling the settled session map leaves it as it is. */
  lemma SettledTwice(data: seq<Row>, stored: map<Dim, seq<Key>>)
    ensures Settled(data, Settled(data, stored)) == Settled(data, stored)
  {
    SettledSelectionsStable(data, stored, |Order|);
  }

  /** A second run offers dimension k exactly the options the first did. */
  lemma RerunSameOptions(data: seq<Row>, stored: map<Dim, seq<Key>>, k: nat)
    requires k < |Order|
    ensures OptionsAt(data, Settled(data, stored), k) == OptionsAt(data, stored, k)
  {
    SettledSelectionsStable(data, stored, k);
  }
}
