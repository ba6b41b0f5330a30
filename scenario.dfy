/** A worked session on five listings: brands A (1) and B (2), models X (10),
    Y (11) and Z (12). Choosing Brand {A} offers Models {X, Y}; choosing Model
    {Y} then offers only Year 2021, so a Year 2019 stored earlier is dropped;
    the filtered table is the one Y listing, and its price is both the
    minimum and the maximum. */
module Scenario {
  import opened Rows
  import opened Cascade
  import opened Kpi
  import opened Session

  function Listing(brand: Key, model: Key, year: Key, price: int): Row
  {
    Row(Some(brand), Some(model), Some(year), None, None, None, None, None, Some(price))
  }

  predicate IsFiveListings(data: seq<Row>)
  {
    && |data| == 5
    && data[0] == Listing(1, 10, 2020, 10000)
    && data[1] == Listing(1, 11, 2021, 20000)
    && data[2] == Listing(2, 12, 2020, 15000)
    && data[3] == Listing(1, 10, 2019, 9000)
    && data[4] == Listing(2, 12, 2021, 18000)
  }

  /** The user's choices: Brand {A}, Model {Y}, a Year {2019} left over from
      before Model was narrowed, and nothing for the other dimensions. */
  predicate IsChoice(stored: map<Dim, seq<Key>>)
  {
    && StoredAt(stored, Brand) == [1]
    && StoredAt(stored, Model) == [11]
    && StoredAt(stored, Year) == [2019]
    && StoredAt(stored, Transmission) == []
    && StoredAt(stored, Condition) == []
    && StoredAt(stored, EngineSize) == []
    && StoredAt(stored, FuelType) == []
  }

  /** Indexing facts for the first three positions of a list. */
  lemma FirstThree(c: seq<Key>)
    ensures |c| > 0 ==> c[0] in c
    ensures |c| > 1 ==> c[1] in c
    ensures |c| > 2 ==> c[2] in c
  {
  }

  /** A strictly increasing list with exactly the members `a < b` is [a, b]. */
  lemma TwoMembers(c: seq<Key>, a: Key, b: Key)
    requires a < b && StrictlyIncreasing(c)
    requires forall v :: v in c <==> v == a || v == b
    ensures c == [a, b]
  {
    assert a in c && b in c;
    FirstThree(c);
  }

  /** A strictly increasing list with exactly one member `a` is [a]. */
  lemma OneMember(c: seq<Key>, a: Key)
    requires StrictlyIncreasing(c)
    requires forall v :: v in c <==> v == a
    ensures c == [a]
  {
    assert a in c;
    FirstThree(c);
  }

  /** A table whose rows, counted with repetition, are just `x` is [x]. */
  lemma SingleListing(r: seq<Row>, x: Row)
    requires multiset(r) == multiset([x])
    ensures r == [x]
  {
    assert |r| == |multiset(r)| == 1;
    assert r[0] in multiset(r);
  }

  /** A member of the data is one of the five listings. */
  lemma OneOfFive(data: seq<Row>, r: Row)
    requires IsFiveListings(data) && r in data
    ensures r == data[0] || r == data[1] || r == data[2] || r == data[3] || r == data[4]
  {
    var i :| 0 <= i < |data| && data[i] == r;
  }

  /** The listings of brand A are the three of the data with brand A. */
  lemma BrandAListings(data: seq<Row>, r: Row)
    requires IsFiveListings(data)
    ensures r in FilterBy(data, Brand, [1]) <==> r in data && r.brand == Some(1)
  {
    FilterByCounts(data, Brand, [1]);
    assert r in FilterBy(data, Brand, [1]) <==> multiset(FilterBy(data, Brand, [1]))[r] > 0;
  }

  /** Every listing of brand A is of model X or Y. */
  lemma BrandAModels(data: seq<Row>, r: Row)
    requires IsFiveListings(data) && r in FilterBy(data, Brand, [1])
    ensures r.model == Some(10) || r.model == Some(11)
  {
    BrandAListings(data, r);
    OneOfFive(data, r);
  }

  /** Among the brand-A listings the models are X and Y. */
  lemma ModelsOfBrandA(data: seq<Row>)
    requires IsFiveListings(data)
    ensures Candidates(Column(FilterBy(data, Brand, [1]), Model)) == [10, 11]
  {
    var view := FilterBy(data, Brand, [1]);
    var c := Candidates(Column(view, Model));
    forall v ensures v in c <==> v == 10 || v == 11 {
      ColumnHas(view, Model, Some(v));
      if v == 10 {
        BrandAListings(data, data[0]);
      } else if v == 11 {
        BrandAListings(data, data[1]);
      } else {
        forall r | r in view ensures r.model != Some(v) {
          BrandAModels(data, r);
        }
      }
    }
    TwoMembers(c, 10, 11);
  }

  /** Only the second listing is of brand A and model Y. */
  lemma ModelYMatch(data: seq<Row>, r: Row)
    requires IsFiveListings(data) && r in data
    ensures MatchesAll(r, [[1], [11]]) <==> r == data[1]
  {
    OneOfFive(data, r);
    var sels: seq<seq<Key>> := [[1], [11]];
    assert MatchesAll(r, sels) <==> Admits(sels[0], Field(r, Order[0])) && Admits(sels[1], Field(r, Order[1]));
  }

  /** Among the listings of brand A and model Y the only year is 2021. */
  lemma YearsOfModelY(data: seq<Row>)
    requires IsFiveListings(data)
    ensures Candidates(Column(Conjunctive(data, [[1], [11]]), Year)) == [2021]
  {
    var view := Conjunctive(data, [[1], [11]]);
    var c := Candidates(Column(view, Year));
    forall v ensures v in c <==> v == 2021 {
      ColumnHas(view, Year, Some(v));
      if v == 2021 {
        ModelYMatch(data, data[1]);
        assert data[1] in view;
      } else {
        forall r | r in view ensures r.year != Some(v) {
          ModelYMatch(data, r);
        }
      }
    }
    OneMember(c, 2021);
  }

  /** Brand {A}, Model {Y} and "All" for the rest admit the rows of brand A and model Y. */
  lemma MatchesBrandAModelY(x: Row)
    ensures MatchesAll(x, [[1], [11], [], [], [], [], []]) <==> x.brand == Some(1) && x.model == Some(11)
  {
    var sels: seq<seq<Key>> := [[1], [11], [], [], [], [], []];
    assert MatchesAll(x, sels) <==> Admits(sels[0], Field(x, Order[0])) && Admits(sels[1], Field(x, Order[1]));
  }

  /** Each listing occurs in the filtered table as often as in [second listing]. */
  lemma ListingTwoCount(data: seq<Row>, x: Row)
    requires IsFiveListings(data)
    ensures multiset(Conjunctive(data, [[1], [11], [], [], [], [], []]))[x] == multiset([data[1]])[x]
  {
    ConjunctiveCounts(data, [[1], [11], [], [], [], [], []]);
    MatchesBrandAModelY(x);
    if x.brand == Some(1) && x.model == Some(11) {
      ListingTwoIsUnique(data, x);
    }
  }

  /** The second listing is the only one of brand A and model Y, and it occurs once. */
  lemma ListingTwoIsUnique(data: seq<Row>, x: Row)
    requires IsFiveListings(data) && x.brand == Some(1) && x.model == Some(11)
    ensures multiset(data)[x] == multiset([data[1]])[x]
  {
    assert data == [data[0]] + [data[1]] + [data[2], data[3], data[4]];
    assert x != data[0] && x != data[2] && x != data[3] && x != data[4];
  }

  /** Selecting Brand {A} and Model {Y} and nothing else leaves the second listing alone. */
  lemma OnlyListingTwo(data: seq<Row>)
    requires IsFiveListings(data)
    ensures Conjunctive(data, [[1], [11], [], [], [], [], []]) == [data[1]]
  {
    var r := Conjunctive(data, [[1], [11], [], [], [], [], []]);
    forall x ensures multiset(r)[x] == multiset([data[1]])[x] {
      ListingTwoCount(data, x);
    }
    assert multiset(r) == multiset([data[1]]);
    SingleListing(r, data[1]);
  }

  /** Brand is taken as stored. */
  lemma BrandSettles(data: seq<Row>, stored: map<Dim, seq<Key>>)
    requires StoredAt(stored, Brand) == [1]
    ensures Selections(data, stored, 1) == [[1]]
  {
    SelectionStep(data, stored, 0);
    assert StoredAt(stored, Order[0]) == [1];
  }

  /** With Brand {A} settled, the Model widget offers the models of the brand-A listings. */
  lemma ModelOptions(data: seq<Row>, stored: map<Dim, seq<Key>>)
    requires Selections(data, stored, 1) == [[1]]
    ensures OptionsAt(data, stored, 1) == Candidates(Column(FilterBy(data, Brand, [1]), Model))
  {
    var sels := Selections(data, stored, 1);
    assert Narrow(data, sels) == FilterBy(data, Brand, [1]) by {
      assert sels[..0] == [];
    }
  }

  /** A stored Model {Y} that is offered is kept. */
  lemma ModelSettles(data: seq<Row>, stored: map<Dim, seq<Key>>)
    requires Selections(data, stored, 1) == [[1]]
    requires OptionsAt(data, stored, 1) == [10, 11] && StoredAt(stored, Model) == [11]
    ensures Selections(data, stored, 2) == [[1], [11]]
  {
    SelectionStep(data, stored, 1);
    assert StoredAt(stored, Order[1]) == [11];
    assert Reconcile([11], [10, 11]) == [11] by {
      assert [11][1..] == [];
    }
  }

  /** With Brand {A} and Model {Y} settled, the Year widget offers the years of
      the listings that match both. */
  lemma YearOptionsOfModelY(data: seq<Row>, stored: map<Dim, seq<Key>>)
    requires Selections(data, stored, 2) == [[1], [11]]
    ensures OptionsAt(data, stored, 2) == Candidates(Column(Conjunctive(data, [[1], [11]]), Year))
  {
    NarrowIsConjunctive(data, [[1], [11]]);
  }

  /** A stored Year {2019} that is no longer offered is dropped. */
  lemma YearSettles(data: seq<Row>, stored: map<Dim, seq<Key>>)
    requires Selections(data, stored, 2) == [[1], [11]]
    requires OptionsAt(data, stored, 2) == [2021] && StoredAt(stored, Year) == [2019]
    ensures Selections(data, stored, 3) == [[1], [11], []]
  {
    SelectionStep(data, stored, 2);
    assert StoredAt(stored, Order[2]) == [2019];
    assert Reconcile([2019], [2021]) == [] by {
      assert [2019][1..] == [];
    }
  }

  /** Nothing is stored for Transmission and beyond, so each settles to "All". */
  lemma LaterSelectionsEmpty(data: seq<Row>, stored: map<Dim, seq<Key>>, k: nat, prefix: seq<seq<Key>>)
    requires IsChoice(stored) && 3 <= k < |Order| && Selections(data, stored, k) == prefix
    ensures Selections(data, stored, k + 1) == prefix + [[]]
  {
    SelectionStep(data, stored, k);
    assert StoredAt(stored, Order[k]) == [];
  }

  /** Transmission, Condition, EngineSize and FuelType all settle to "All". */
  lemma LaterSettle(data: seq<Row>, stored: map<Dim, seq<Key>>)
    requires IsChoice(stored) && Selections(data, stored, 3) == [[1], [11], []]
    ensures Selections(data, stored, 7) == [[1], [11], [], [], [], [], []]
  {
    LaterSelectionsEmpty(data, stored, 3, [[1], [11], []]);
    LaterSelectionsEmpty(data, stored, 4, [[1], [11], [], []]);
    LaterSelectionsEmpty(data, stored, 5, [[1], [11], [], [], []]);
    LaterSelectionsEmpty(data, stored, 6, [[1], [11], [], [], [], []]);
  }

  /** Scenario step 1: Brand {A} offers Models {X, Y}; Z, a model of B, is not offered. */
  lemma BrandAOffersModelsXY(data: seq<Row>, stored: map<Dim, seq<Key>>)
    requires IsFiveListings(data) && IsChoice(stored)
    ensures Selections(data, stored, 1) == [[1]]
    ensures OptionsAt(data, stored, 1) == [10, 11]
  {
    BrandSettles(data, stored);
    ModelOptions(data, stored);
    ModelsOfBrandA(data);
  }

  /** Scenario steps 2 and 3: Model {Y} is kept, the only Year then offered is
      2021, and the stored Year {2019} is dropped. */
  lemma ModelYOffersOnly2021(data: seq<Row>, stored: map<Dim, seq<Key>>)
    requires IsFiveListings(data) && IsChoice(stored)
    ensures Selections(data, stored, 2) == [[1], [11]]
    ensures OptionsAt(data, stored, 2) == [2021]
    ensures Selections(data, stored, 3) == [[1], [11], []]
  {
    BrandAOffersModelsXY(data, stored);
    ModelSettles(data, stored);
    YearOptionsOfModelY(data, stored);
    YearsOfModelY(data);
    YearSettles(data, stored);
  }

  /** All seven settled selections: Brand {A}, Model {Y}, and "All" for the rest. */
  lemma AllSelections(data: seq<Row>, stored: map<Dim, seq<Key>>)
    requires IsFiveListings(data) && IsChoice(stored)
    ensures Selections(data, stored, |Order|) == [[1], [11], [], [], [], [], []]
  {
    ModelYOffersOnly2021(data, stored);
    LaterSettle(data, stored);
  }

  /** Scenario step 4: the filtered table is the second listing alone, and the
      summary shows one vehicle priced 20000 at both ends. */
  lemma FilteredIsListingTwo(data: seq<Row>, stored: map<Dim, seq<Key>>)
    requires IsFiveListings(data) && IsChoice(stored)
    ensures Conjunctive(data, Selections(data, stored, |Order|)) == [data[1]]
    ensures PriceSummary([data[1]]) == Summary(1, Amount(20000), Amount(20000))
  {
    AllSelections(data, stored);
    OnlyListingTwo(data);
  }

  /** What the run leaves behind: the Year key holds "All", and the filtered
      table is the second listing. */
  lemma AfterRerun(data: seq<Row>, stored: map<Dim, seq<Key>>)
    requires IsFiveListings(data) && IsChoice(stored)
    ensures Year in Settled(data, stored) && Settled(data, stored)[Year] == []
    ensures Conjunctive(data, Selections(data, stored, |Order|)) == [data[1]]
  {
    assert Year in Settled(data, stored) && Settled(data, stored)[Year] == [] by {
      SettledKey(data, stored, Year);
      assert SelectionAt(data, stored, 2) == [] by {
        ModelYOffersOnly2021(data, stored);
      }
    }
    FilteredIsListingTwo(data, stored);
  }

  /** Storing Brand {A}, Model {Y} and Year {2019} in a fresh session makes the choice. */
  lemma ChoicesStored()
    ensures IsChoice(map[][Brand := [1]][Model := [11]][Year := [2019]])
  {
  }

  /** The session end to end: the user stores Brand {A}, Model {Y} and Year
      {2019}, the script reruns, and the Year widget comes back empty while the
      table and the tiles show the one Y listing. */
  method Walkthrough(data: seq<Row>) returns (year: seq<Key>, shown: seq<Row>, tiles: Summary)
    requires IsFiveListings(data)
    ensures year == [] && shown == [data[1]]
    ensures tiles == Summary(1, Amount(20000), Amount(20000))
  {
    var app := new Dashboard(data);
    app.Choose(Brand, [1]);
    app.Choose(Model, [11]);
    app.Choose(Year, [2019]);
    ghost var before := app.stored;
    ChoicesStored();
    app.Rerun();
    AfterRerun(data, before);
    year := app.stored[Year];
    shown := app.filtered;
    tiles := PriceSummary(shown);
  }
}
