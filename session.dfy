/** One browser session of the dashboard. The widget state kept between reruns
    (`st.session_state`) is a map from dimension to stored selection; every user
    interaction reruns the sidebar script top to bottom, which rewrites that
    map, exposes each widget's options and rebinds the filtered table. */
module Session {
  import opened Rows
  import opened Cascade

  class Dashboard {
    /** The dataset, loaded once and never changed. */
    const data: seq<Row>
    /** The selection stored under each widget key; a missing key reads as []. */
    var stored: map<Dim, seq<Key>>
    /** The options each widget offered on the last run, by cascade rank. */
    var options: seq<seq<Key>>
    /** The filtered table of the last run. */
    var filtered: seq<Row>

    /** A fresh session: nothing stored yet, nothing computed yet. */
    constructor (data: seq<Row>)
      ensures this.data == data && stored == map[] && options == [] && filtered == []
    {
      this.data := data;
      stored := map[];
      options := [];
      filtered := [];
    }

    /** The user changes one widget: its new selection is stored under its key
        before the next run. */
    method Choose(d: Dim, values: seq<Key>)
      modifies this`stored
      ensures stored == old(stored)[d := values]
    {
      stored := stored[d := values];
    }

    /** One run of the sidebar and filter script (app.py lines 19-113): walks the seven
        dimensions in cascade order, offering candidates from the running view,
        reconciling and storing each selection, and narrowing the view by every
        dimension but the last; then filters the dataset by all seven. */
    method Rerun()
      modifies this`stored, this`options, this`filtered
      ensures stored == Settled(data, old(stored))
      ensures |options| == |Order|
      ensures forall k :: 0 <= k < |Order| ==> options[k] == OptionsAt(data, old(stored), k)
      ensures filtered == Conjunctive(data, Selections(data, old(stored), |Order|))
    {
      ghost var start := stored;
      var view := data;
      var sels: seq<seq<Key>> := [];
      var offered: seq<seq<Key>> := [];
      var i := 0;
      RanNothing(data, start);
      while i < |Order|
        invariant Ran(data, start, i, sels, offered, view, stored)
        decreases |Order| - i
      {
        var d := Order[i];
        var cands := Candidates(Column(view, d));
        var sel := StoredAt(stored, d);
        if d != Brand {
          sel := Reconcile(sel, cands);
        }
        RanOneMore(data, start, i, sels, offered, view, stored, cands, sel);
        stored := stored[d := sel];
        offered := offered + [cands];
        sels := sels + [sel];
        if d != FuelType {
          view := FilterBy(view, d, sel);
        }
        i := i + 1;
      }
      RanAll(data, start, sels, offered, view, stored);
      options := offered;
      filtered := ApplyFilters(data, sels);
    }
  }

  /** The loop invariant of Rerun: the first i dimensions have been processed. */
  ghost predicate Ran(data: seq<Row>, start: map<Dim, seq<Key>>, i: nat, sels: seq<seq<Key>>,
                      offered: seq<seq<Key>>, view: seq<Row>, stored: map<Dim, seq<Key>>)
  {
    && i <= |Order|
    && sels == Selections(data, start, i)
    && |offered| == i
    && (forall k :: 0 <= k < i ==> offered[k] == OptionsAt(data, start, k))
    && (i < |Order| ==> view == Narrow(data, sels))
    && stored == Overwritten(start, sels)
  }

  lemma RanNothing(data: seq<Row>, start: map<Dim, seq<Key>>)
    ensures Ran(data, start, 0, [], [], data, start)
  {
    EveryDimensionInOrder();
  }

  /** One pass of the loop in Rerun keeps its invariant. */
  lemma RanOneMore(data: seq<Row>, start: map<Dim, seq<Key>>, i: nat, sels: seq<seq<Key>>,
                   offered: seq<seq<Key>>, view: seq<Row>, stored: map<Dim, seq<Key>>,
                   cands: seq<Key>, sel: seq<Key>)
    requires Ran(data, start, i, sels, offered, view, stored) && i < |Order|
    requires cands == Candidates(Column(view, Order[i]))
    requires sel == Settle(Order[i], StoredAt(stored, Order[i]), cands)
    ensures Ran(data, start, i + 1, sels + [sel], offered + [cands],
                if Order[i] != FuelType then FilterBy(view, Order[i], sel) else view,
                stored[Order[i] := sel])
  {
    RankOfOrder(i);
    Step(data, start, sels, view, sel);
    OfferedOneMore(data, start, offered, cands);
  }

  /** Recording the options of one more dimension keeps the record of options. */
  lemma OfferedOneMore(data: seq<Row>, start: map<Dim, seq<Key>>, offered: seq<seq<Key>>, cands: seq<Key>)
    requires |offered| < |Order|
    requires forall k :: 0 <= k < |offered| ==> offered[k] == OptionsAt(data, start, k)
    requires cands == OptionsAt(data, start, |offered|)
    ensures forall k :: 0 <= k <= |offered| ==> (offered + [cands])[k] == OptionsAt(data, start, k)
  {
    var more := offered + [cands];
    forall k | 0 <= k <= |offered| ensures more[k] == OptionsAt(data, start, k) {
      if k < |offered| {
        assert more[k] == offered[k];
      }
    }
  }

  /** After the last pass the loop of Rerun has computed everything it promises. */
  lemma RanAll(data: seq<Row>, start: map<Dim, seq<Key>>, sels: seq<seq<Key>>,
               offered: seq<seq<Key>>, view: seq<Row>, stored: map<Dim, seq<Key>>)
    requires Ran(data, start, |Order|, sels, offered, view, stored)
    ensures sels == Selections(data, start, |Order|)
    ensures stored == Settled(data, start)
    ensures |offered| == |Order|
    ensures forall k :: 0 <= k < |Order| ==> offered[k] == OptionsAt(data, start, k)
  {
    OverwrittenBySettled(data, start);
  }

  /** The session map once the widget keys of the first |sels| dimensions have
      been rewritten with `sels`. */
  ghost function Overwritten(start: map<Dim, seq<Key>>, sels: seq<seq<Key>>): map<Dim, seq<Key>>
    requires |sels| <= |Order|
  {
    map d | d in Order && (d in start || Rank(d) < |sels|) :: if Rank(d) < |sels| then sels[Rank(d)] else start[d]
  }

  /** What one pass of the loop in Rerun establishes about dimension |sels|. */
  lemma Step(data: seq<Row>, start: map<Dim, seq<Key>>, sels: seq<seq<Key>>, view: seq<Row>, sel: seq<Key>)
    requires |sels| < |Order|
    requires sels == Selections(data, start, |sels|) && view == Narrow(data, sels)
    requires var d := Order[|sels|];
             var current := Overwritten(start, sels);
             sel == Settle(d, StoredAt(current, d), Candidates(Column(view, d)))
    ensures Candidates(Column(view, Order[|sels|])) == OptionsAt(data, start, |sels|)
    ensures sels + [sel] == Selections(data, start, |sels| + 1)
    ensures Overwritten(start, sels)[Order[|sels|] := sel] == Overwritten(start, sels + [sel])
    ensures FilterBy(view, Order[|sels|], sel) == Narrow(data, sels + [sel])
  {
    var d := Order[|sels|];
    var current := Overwritten(start, sels);
    UntouchedKey(start, sels);
    assert sel == Settle(d, StoredAt(start, d), Candidates(Column(view, d)));
    OverwriteOne(start, sels, sel);
    assert (sels + [sel])[..|sels|] == sels;
  }

  /** The key of dimension |sels| still holds what the session started with. */
  lemma UntouchedKey(start: map<Dim, seq<Key>>, sels: seq<seq<Key>>)
    requires |sels| < |Order|
    ensures StoredAt(Overwritten(start, sels), Order[|sels|]) == StoredAt(start, Order[|sels|])
  {
    RankOfOrder(|sels|);
  }

  /** Rewriting one more key extends the overwritten prefix by one. */
  lemma OverwriteOne(start: map<Dim, seq<Key>>, sels: seq<seq<Key>>, sel: seq<Key>)
    requires |sels| < |Order|
    ensures Overwritten(start, sels)[Order[|sels|] := sel] == Overwritten(start, sels + [sel])
  {
    var i := |sels|;
    var d := Order[i];
    var before := Overwritten(start, sels)[d := sel];
    var after := Overwritten(start, sels + [sel]);
    RankOfOrder(i);
    forall e: Dim ensures (e in before <==> e in after) && (e in after ==> before[e] == after[e]) {
      assert Order[Rank(e)] == e;
      if e != d {
        assert Rank(e) != i;
      }
    }
    assert before == after;
  }

  /** After all seven keys are rewritten the session map is the settled one. */
  lemma OverwrittenBySettled(data: seq<Row>, start: map<Dim, seq<Key>>)
    ensures Overwritten(start, Selections(data, start, |Order|)) == Settled(data, start)
  {
    EveryDimensionInOrder();
  }

}
