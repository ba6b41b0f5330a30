/** The pricing summary above the charts: the number of filtered listings and
    the lowest and highest price among them, with the placeholder shown when
    nothing matches the filters. */
module Kpi {
  import opened Rows

  /** What a price tile shows: the placeholder "—", an amount, or the NaN that
      pandas returns when no filtered row has a price. */
  datatype Metric = Dash | Amount(value: int) | NotANumber

  /** The count tile and the two price tiles. */
  datatype Summary = Summary(total: nat, lowest: Metric, highest: Metric)

  /** `Series.min()` over the Price column: missing prices are skipped, and
      None stands for the NaN of a column with no price at all. */
  function LowestPrice(rows: seq<Row>): (m: Option<int>)
    ensures m == None <==> forall r :: r in rows ==> r.price == None
    ensures m != None ==> exists r :: r in rows && r.price == m
    ensures m != None ==> forall r :: r in rows && r.price != None ==> m.value <= r.price.value
  {
    if rows == [] then None
    else
      assert rows == [rows[0]] + rows[1..];
      var rest := LowestPrice(rows[1..]);
      match rows[0].price
      case None => rest
      case Some(p) => if rest == None || p <= rest.value then Some(p) else rest
  }

  /** `Series.max()` over the Price column, with the same treatment of missing prices. */
  function HighestPrice(rows: seq<Row>): (m: Option<int>)
    ensures m == None <==> forall r :: r in rows ==> r.price == None
    ensures m != None ==> exists r :: r in rows && r.price == m
    ensures m != None ==> forall r :: r in rows && r.price != None ==> r.price.value <= m.value
  {
    if rows == [] then None
    else
      assert rows == [rows[0]] + rows[1..];
      var rest := HighestPrice(rows[1..]);
      match rows[0].price
      case None => rest
      case Some(p) => if rest == None || rest.value <= p then Some(p) else rest
  }

  /** A price tile: "—" when the filtered table is empty, otherwise the
      statistic, shown as NaN when there is none. */
  function Tile(rows: seq<Row>, stat: Option<int>): (m: Metric)
    ensures m == Dash <==> rows == []
    ensures m == NotANumber <==> rows != [] && stat == None
    ensures m.Amount? <==> rows != [] && stat != None
    ensures m.Amount? ==> stat == Some(m.value)
  {
    if |rows| == 0 then Dash
    else match stat
      case None => NotANumber
      case Some(p) => Amount(p)
  }

  /** The count, minimum and maximum tiles for the filtered table. */
  function PriceSummary(filtered: seq<Row>): (s: Summary)
    ensures s.total == |filtered|
    ensures s.lowest == Dash <==> filtered == []
    ensures s.highest == Dash <==> filtered == []
    ensures s.lowest == NotANumber <==> filtered != [] && forall r :: r in filtered ==> r.price == None
    ensures s.lowest.Amount? ==> exists r :: r in filtered && r.price == Some(s.lowest.value)
    ensures s.lowest.Amount? ==> forall r :: r in filtered && r.price != None ==> s.lowest.value <= r.price.value
    ensures s.highest.Amount? ==> exists r :: r in filtered && r.price == Some(s.highest.value)
    ensures s.highest.Amount? ==> forall r :: r in filtered && r.price != None ==> r.price.value <= s.highest.value
  {
    Summary(|filtered|, Tile(filtered, LowestPrice(filtered)), Tile(filtered, HighestPrice(filtered)))
  }

  /** The two price tiles agree: both show "—", both show NaN, or both show an
      amount, the minimum being no larger than the maximum. */
  lemma TilesAgree(filtered: seq<Row>)
    ensures var s := PriceSummary(filtered);
            && (s.lowest == Dash <==> s.highest == Dash)
            && (s.lowest == NotANumber <==> s.highest == NotANumber)
            && (s.lowest.Amount? <==> s.highest.Amount?)
            && (s.lowest.Amount? ==> s.lowest.value <= s.highest.value)
  {
    var s := PriceSummary(filtered);
    if s.lowest.Amount? {
      var lo := LowestPrice(filtered);
      var hi := HighestPrice(filtered);
      var r :| r in filtered && r.price == lo;
      assert lo.value <= r.price.value <= hi.value;
    }
  }
}
