/** The vehicle listings the dashboard explores: one Row per listing, seven
    categorical fields that the sidebar filters on, and the two numeric fields
    (Mileage, Price) used by the summary and the mileage chart. */
module Rows {

  datatype Option<+T> = None | Some(value: T)

  /** A categorical value (a brand, a model name, a year, an engine size, ...).
      Values are compared only for equality and order, so each is represented
      by an integer code that preserves the field's own sort order. */
  type Key = int

  /** The seven filter dimensions of the sidebar. */
  datatype Dim = Brand | Model | Year | Transmission | Condition | EngineSize | FuelType

  /** The fixed cascade order: each dimension's options depend only on the ones before it. */
  const Order: seq<Dim> := [Brand, Model, Year, Transmission, Condition, EngineSize, FuelType]

  /** One listing. `None` is a missing cell (NaN after loading). In the mileage
      chart it is also what numeric coercion yields for an unparsable Mileage or
      Price cell; the price tiles take Price as parsed when loading. */
  datatype Row = Row(
    brand: Option<Key>,
    model: Option<Key>,
    year: Option<Key>,
    transmission: Option<Key>,
    condition: Option<Key>,
    engineSize: Option<Key>,
    fuelType: Option<Key>,
    mileage: Option<int>,
    price: Option<int>)

  /** The column of a row that dimension `d` filters on. */
  function Field(r: Row, d: Dim): Option<Key>
  {
    match d
    case Brand => r.brand
    case Model => r.model
    case Year => r.year
    case Transmission => r.transmission
    case Condition => r.condition
    case EngineSize => r.engineSize
    case FuelType => r.fuelType
  }

  /** The position of `d` in the cascade order. */
  function Rank(d: Dim): (k: nat)
    ensures k < |Order| && Order[k] == d
  {
    match d
    case Brand => 0
    case Model => 1
    case Year => 2
    case Transmission => 3
    case Condition => 4
    case EngineSize => 5
    case FuelType => 6
  }

  /** Rank inverts Order. */
  lemma RankOfOrder(k: nat)
    requires k < |Order|
    ensures Rank(Order[k]) == k
  {
    assert forall i, j :: 0 <= i < j < |Order| ==> Order[i] != Order[j];
  }

  /** Order lists every dimension. */
  lemma EveryDimensionInOrder()
    ensures forall d: Dim :: d in Order
  {
    forall d: Dim ensures d in Order {
      assert Order[Rank(d)] == d;
    }
  }

  /** The column `rows[d]` of a table, one cell per row, in row order. */
  function Column(rows: seq<Row>, d: Dim): (c: seq<Option<Key>>)
    ensures |c| == |rows|
    ensures forall i :: 0 <= i < |rows| ==> c[i] == Field(rows[i], d)
  {
    if rows == [] then [] else [Field(rows[0], d)] + Column(rows[1..], d)
  }

  /** A cell value occurs in the column exactly when some row carries it. */
  lemma ColumnHas(rows: seq<Row>, d: Dim, v: Option<Key>)
    ensures v in Column(rows, d) <==> exists r :: r in rows && Field(r, d) == v
  {
    var c := Column(rows, d);
    if v in c {
      var i :| 0 <= i < |c| && c[i] == v;
      assert rows[i] in rows;
    }
    if r :| r in rows && Field(r, d) == v {
      var i :| 0 <= i < |rows| && rows[i] == r;
      assert c[i] == v;
    }
  }

  /** `a` is `b` with some elements left out and the rest in their original order. */
  predicate IsSubsequence<T(==)>(a: seq<T>, b: seq<T>)
    decreases |b|
  {
    if a == [] then true
    else if b == [] then false
    else (a[0] == b[0] && IsSubsequence(a[1..], b[1..])) || IsSubsequence(a, b[1..])
  }

  /** A subsequence of a subsequence of `c` is a subsequence of `c`. */
  lemma {:induction false} SubsequenceTransitive<T>(a: seq<T>, b: seq<T>, c: seq<T>)
    requires IsSubsequence(a, b) && IsSubsequence(b, c)
    ensures IsSubsequence(a, c)
    decreases |c|
  {
    if a != [] && c != [] {
      if b[0] == c[0] && IsSubsequence(b[1..], c[1..]) {
        if a[0] == b[0] && IsSubsequence(a[1..], b[1..]) {
          SubsequenceTransitive(a[1..], b[1..], c[1..]);
        } else {
          SubsequenceTransitive(a, b[1..], c[1..]);
        }
      } else {
        SubsequenceTransitive(a, b, c[1..]);
      }
    }
  }

  lemma {:induction false} SubsequenceOfItself<T>(s: seq<T>)
    ensures IsSubsequence(s, s)
    decreases |s|
  {
    if s != [] {
      SubsequenceOfItself(s[1..]);
    }
  }
}
