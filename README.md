# Vehicle price dashboard: filter cascade, price summary and mileage buckets

This project models the core of a Streamlit dashboard over a table of vehicle
listings (`app.py`) and proves properties of it in Dafny.

- **Filter cascade.** The sidebar has seven multi-select filters in a fixed
  order: Brand, Model, Year, Transmission, Condition, Engine Size, Fuel Type.
  - Each filter offers the sorted, distinct, non-missing values of its field
    among the listings that pass every earlier filter.
  - Each filter except Brand drops any stored choice that is no longer
    offered.
  - Each filter except Fuel Type then narrows the running view `tmp`. An empty
    selection means "All".
- **Final filter.** The filtered table applies all seven selections together,
  in dataset order.
- **Price summary.** The summary shows the listing count and the minimum and
  maximum price, or "—" when nothing matches.
- **Mileage chart.**
  - Rows with a missing Mileage or Price are dropped, then rows above the
    mileage cap.
  - The remaining rows go into eight fixed, right-closed mileage intervals.
  - Each non-empty interval becomes one bar carrying its row count.

Modules:

- `Rows` (`rows.dfy`): one listing per `Row`. The seven categorical fields
  are order-preserving integer codes (`Key`), and a missing cell is `None`.
- `Cascade` (`cascade.dfy`): the pure parts of the cascade, as functions and
  lemmas.
  - Candidate lists (`Candidates`), reconciliation (`Reconcile`), `isin`
    filtering (`FilterBy`), the running view (`Narrow`) and the conjunctive
    final filter (`Conjunctive`).
  - The settled selections of one script run (`Selections`, `OptionsAt`,
    `SelectionAt`, `Settled`).
  - The method `ApplyFilters`, which rebinds the filtered table one dimension
    at a time.
- `CascadeLaws` (`cascade_laws.dfy`): laws of the cascade.
  - Dependence on earlier dimensions only, and monotonicity for fixed
    selections.
  - An empty view empties every later dimension.
  - A rerun with no new input is idempotent.
  - A counterexample: cascade monotonicity fails once reconciliation runs.
- `Session` (`session.dfy`): the browser session as the class `Dashboard`.
  - The stored widget state `st.session_state` is a map from dimension to
    stored selection.
  - `Choose` is one user interaction. `Rerun` is one top-to-bottom run of the
    sidebar script and the filter block. It walks the dimensions in a loop,
    overwrites the stored selections and rebinds the options and the filtered
    table.
- `Kpi` (`kpi.dfy`): the count, minimum and maximum tiles.
- `Mileage` (`mileage.dfy`): numeric cleaning, the cap, the `pd.cut`
  classification with `include_lowest=True`, and the per-bucket counts in
  display order.
- `Scenario` (`scenario.dfy`): a worked session on five listings.
  - Brand {A} offers Models {X, Y}.
  - Model {Y} then offers only Year 2021, so a stored Year {2019} is dropped.
  - The filtered table is the single Y listing, with count 1 and minimum =
    maximum = 20000.
  - `Walkthrough` runs this through `Dashboard.Choose` and `Dashboard.Rerun`.

Where one might expect otherwise, the model follows the code:

- **Cascade monotonicity.** One might expect that narrowing an earlier
  selection never grows a later candidate list. This holds when the later
  selections are held fixed (`CascadeLaws.NarrowerSelectionsShrinkOptions`).
  It fails for the cascade as written, because reconciliation can turn a later
  stored selection into "All".
  - Example: a stored Model of brand B is dropped once Brand narrows to {A}.
    Year then offers every year of brand A, which is more than before.
  - `CascadeLaws.ReconciliationCanWidenLaterOptions` proves this on a
    three-listing table.
  - The widening comes from two things together: an empty selection means
    "All" (app.py:17), and reconciliation drops a stored value that is no
    longer offered without a message (app.py:34).
- **Brand is never reconciled.** Its stored selection is used as stored.
- **The last fixed edge is 1,000,000, not unbounded.** `pd.cut` gives NaN to a
  mileage above 1,000,000 or below 0. `.astype(str)` turns that NaN into the
  label "nan", and `groupby` counts it as a bucket of its own. The model keeps
  this ninth group.
- **The emptiness check runs before the cap.** A table that has rows with both
  numbers but none under the cap yields an empty chart, not the "unavailable"
  message.

## Model

| member | source | states |
|---|---|---|
| Rows.Column | app.py:23 | the column of a field: one cell per listing, in listing order, each the listing's value of that field |
| Cascade.Candidates | app.py:46 | `sorted(col.dropna().unique())`: strictly increasing, hence sorted without duplicates; a value is offered iff some cell of the column holds it, so no missing value is offered |
| Cascade.Reconcile | app.py:50 | the list comprehension keeps exactly the stored values that are candidates, in their stored relative order (a subsequence of the stored list) |
| Cascade.ReconcileKeepsCounts | app.py:50 | every copy of a still-offered stored value survives and no copy of a dropped one does |
| Cascade.ReconcileIdempotent | app.py:50 | reconciling twice against the same candidates equals reconciling once |
| Cascade.IsIn | app.py:56 | `rows[rows[d].isin(sel)]` keeps rows in their original order (a subsequence) |
| Cascade.IsInCounts | app.py:56 | `isin` keeps every copy of a row whose value is selected and drops every row whose value is not selected or is missing |
| Cascade.FilterBy | app.py:55-56 | the guarded filter step keeps order, and an empty selection returns the view unchanged |
| Cascade.FilterByCounts | app.py:55-56 | with the guard, a row is kept (with all its copies) iff the selection is empty or holds the row's value |
| Cascade.Conjunctive | app.py:99-113 | the filtered table keeps dataset order, and a listing is in it iff it is in the dataset and passes every non-empty selection |
| Cascade.ConjunctiveCounts | app.py:99-113 | the filtered table keeps every copy of a passing listing and no copy of any other |
| Cascade.AllEmptyKeepsEverything | app.py:99-113 | with every selection empty the filtered table is the whole dataset |
| Cascade.FilterConjunctive | app.py:99-113 | one more `isin` step on the filtered table is the conjunction with one more selection |
| Cascade.Narrow | app.py:38-86 | the running view `tmp`, narrowed one filter step per dimension, keeps rows of the dataset in their original order (a subsequence) |
| Cascade.NarrowIsConjunctive | app.py:38-86 | the running view `tmp` after any number of narrowings equals the conjunctive filter by the same selections |
| Cascade.ApplyFilters | app.py:99-113 | the sequential rebinding of `filtered` returns the conjunctive filter of the dataset by the given selections |
| Cascade.Selections | app.py:19-93 | the settled selections of the first k dimensions: one per dimension processed |
| Cascade.OptionsAt | app.py:59 | every widget's option list is strictly increasing |
| Cascade.OptionsAtMembers | app.py:38-89 | a value is offered for dimension k iff some dataset listing that passes every earlier settled selection carries it; Brand offers every brand in the dataset |
| Cascade.SelectionAt | app.py:48-50 | Brand's selection is the stored one; for every other dimension a value is kept iff it was stored and is offered, and the kept list is a subsequence of the stored one |
| Cascade.SelectionStep | app.py:32-34 | settling dimension k appends its stored selection reconciled against the options of dimension k |
| Cascade.Settled | app.py:19-93 | the session map after a run has a key for every one of the seven widgets |
| Cascade.SettledKey | app.py:34 | after a run every widget key is present and holds the settled selection of its dimension |
| CascadeLaws.OptionsDependOnlyOnEarlier | app.py:26-46 | the selections and options of the first k dimensions depend only on what is stored for those k dimensions (Model on Brand only, Year on Brand and Model, ...) |
| CascadeLaws.NarrowerSelectionsShrinkView | app.py:38-56 | replacing selections by narrower ones (a subset, or anything instead of "All") can only remove rows from the running view |
| CascadeLaws.NarrowerSelectionsShrinkOptions | app.py:38-89 | with the selections given, narrowing any of them never adds a candidate to a later dimension |
| CascadeLaws.BrandThenModel | app.py:23-34 | Brand offers every brand of the dataset and keeps its stored selection; Model offers the models of the selected brands (all models when none is selected) and reconciles against them |
| CascadeLaws.ReconciliationCanWidenLaterOptions | app.py:26-50 | on a three-listing table, narrowing Brand from {1, 2} to {1} with Model {12} stored makes Year offer 2020, which it did not offer before |
| CascadeLaws.EmptyViewEmptiesDownstream | app.py:39-93 | once the running view is empty, every later dimension offers nothing and every later stored selection reconciles to nothing |
| CascadeLaws.SettleIdempotent | app.py:32-34 | settling an already settled selection against the same options changes nothing |
| CascadeLaws.SettledSelectionsStable | app.py:19-93 | starting from the settled session map, a run reproduces the same selections |
| CascadeLaws.RerunIdempotent | app.py:19-93 | a second run with no new input leaves the session map unchanged and offers every dimension the same options |
| Session.Dashboard.constructor | app.py:13 | a session starts with the loaded dataset and an empty widget state |
| Session.Dashboard.Choose | app.py:36 | a user interaction stores the new selection under its widget key and changes nothing else |
| Session.Dashboard.Rerun | app.py:19-113 | one run leaves each widget key holding its settled selection, exposes every dimension's options, and binds the filtered table to the conjunctive filter by the settled selections |
| Kpi.LowestPrice | app.py:126 | `Price.min()` skips missing prices: it is missing iff no row has a price, and otherwise it is some row's price and no larger than any price |
| Kpi.HighestPrice | app.py:136 | `Price.max()` skips missing prices: it is missing iff no row has a price, and otherwise it is some row's price and no smaller than any price |
| Kpi.Tile | app.py:124-137 | a price tile shows "—" iff the filtered table is empty, NaN iff it is not empty and the statistic is missing, and otherwise the statistic |
| Kpi.PriceSummary | app.py:122-137 | the count is the number of filtered listings; each price tile shows "—" iff nothing is filtered; the minimum tile shows NaN iff no filtered listing has a price; a shown minimum or maximum is attained by a filtered listing and bounds every price |
| Kpi.TilesAgree | app.py:124-137 | the two price tiles are "—" together, NaN together or amounts together, and then the minimum is at most the maximum |
| Mileage.SearchLeftCovered | app.py:274-279 | the insertion point `pd.cut` computes for a mileage in [0, 25000] is 1 (the lowest edge moved into the first interval), and for one in (lo, hi] of consecutive edges it is the index of hi |
| Mileage.SearchLeftOutside | app.py:274-279 | the insertion point is before every edge below 0 and after every edge above 1,000,000, the two cases `pd.cut` turns into NaN |
| Mileage.CoveredOnce | app.py:272-273 | the eight intervals cover [0, 1,000,000], and each mileage there is in exactly one of them |
| Mileage.Bucket | app.py:272-279 | the bucket `pd.cut` assigns is index i iff interval i covers the mileage, and it assigns none iff the mileage lies outside [0, 1,000,000] |
| Mileage.EdgeGoesDown | app.py:274-279 | a mileage exactly on an inner edge goes to the interval below it |
| Mileage.BucketMonotone | app.py:272-279 | where both have a bucket, more miles never give a lower bucket index |
| Mileage.GroupOf | app.py:274-279 | every row belongs to one of nine groups: the eight intervals and the "nan" group |
| Mileage.GroupOfMeansInterval | app.py:274-279 | a row is in group i < 8 iff its mileage is present and lies in interval i, and in the "nan" group iff its mileage is missing or lies outside [0, 1,000,000] |
| Mileage.EndLabels | app.py:272-279 | mileage in [0, 25000] is labelled "0–25k", in (300000, 1000000] "300k+", and outside [0, 1000000] "nan" |
| Mileage.Clean | app.py:229-233 | `dropna(subset=["Mileage", "Price"])` keeps, in order, exactly the rows that have both numbers |
| Mileage.UnderCap | app.py:255 | the cap keeps, in order, exactly the rows whose mileage is present and at most the cap |
| Mileage.CleanCounts | app.py:233 | `dropna` keeps every copy of a row that has both numbers and no copy of any other row |
| Mileage.UnderCapCounts | app.py:255 | the cap keeps every copy of a row whose mileage is present and at most the cap, and no copy of any other row |
| Mileage.CountIn | app.py:283-285 | a bucket's count is the number of positions in the table whose row falls in that bucket; it is positive iff some row is in the bucket |
| Mileage.BarsFrom | app.py:283-297 | every bar from group g on is non-empty and carries the label and the row count of one group g or later |
| Mileage.Bars | app.py:283-297 | every bar is non-empty and carries the label and row count of one group, and each group has its bar iff it holds some row |
| Mileage.BarsCountEveryRow | app.py:283-292 | the per-bucket counts add up to the number of rows bucketed |
| Mileage.LabelsDistinct | app.py:273 | different groups carry different labels |
| Mileage.AllLabels | app.py:296-297 | the display order lists the label of group g at position g |
| Mileage.BarsInLabelOrder | app.py:295-297 | the bars appear in the fixed label order, with "nan" last |
| Mileage.MileageChart | app.py:229-299 | no chart iff every filtered row misses its mileage or its price; otherwise the bars of the rows with both numbers and mileage within the cap |
| Mileage.ChartCountsKeptRows | app.py:229-292 | no chart iff every filtered row misses its mileage or its price; the kept rows are exactly the filtered rows with both numbers and mileage within the cap, every copy of such a row kept and no other row; the counts add up to the number of kept rows; each bar is non-empty; each group has its labelled bar iff some kept row falls in it |
| Scenario.BrandAOffersModelsXY | app.py:26-30 | on the five listings, Brand {A} settles as stored and Model offers exactly [X, Y] |
| Scenario.ModelYOffersOnly2021 | app.py:46-50 | with Model {Y} kept, Year offers only [2021], and the stored Year {2019} reconciles to "All" |
| Scenario.AllSelections | app.py:19-93 | the settled selections are Brand {A}, Model {Y} and "All" for the other five dimensions |
| Scenario.FilteredIsListingTwo | app.py:99-137 | the filtered table is the one Y listing, and the summary shows count 1, minimum 20000 and maximum 20000 |
| Scenario.AfterRerun | app.py:48-50 | after the run the Year key holds the empty selection and the filtered table is the one Y listing |
| Scenario.Walkthrough | app.py:19-137 | storing Brand {A}, Model {Y} and Year {2019} and then rerunning leaves the Year widget empty and shows the one Y listing at 20000 at both ends |

## Left out

- Streamlit rendering and widgets are not modelled: page setup, titles, `st.multiselect`, columns, metrics, warnings, checkbox, selectbox and slider. A widget's returned value is an input to `Dashboard.Choose` or to `MileageChart` (the cap).
- Loading and caching (`@st.cache_data`, `pd.read_csv`) is file I/O. The dataset is a constructor argument of `Dashboard`.
- `prep_data_once.py` downloads and copies the dataset. It is network and file I/O and is not part of this model.
- The Altair charts, including the yearly-uplift transform and the chart drawing the mileage bars, are a foreign library with floating-point arithmetic.
- The median price tile and the per-bucket median and mean prices are floating-point aggregates. Only counts, the minimum and the maximum are modelled.
- The slider bounds from quantiles, the quantile bucketing (`pd.qcut`) and its fallback to fixed buckets are left out. They are floating-point percentiles inside pandas. The model is the fixed-bucket path, the one taken when the quantile checkbox is off or the fallback fires.
- Kpi.LowestPrice / Kpi.HighestPrice: the price tiles read the raw Price column (app.py:126, app.py:136), with no numeric coercion. The model assumes `read_csv` parsed Price as numbers. A non-numeric Price cell, which pandas' `min` and `max` would compare as text with the numbers, is not modelled.
- `pd.to_numeric(..., errors="coerce")` is modelled only by its result: Mileage and Price are optional integers per row, and an unparsable cell is `None`. Fractional mileages and prices are not modelled.
- Categorical values are integer codes that preserve their sort order. String and float comparison in `sorted` is not modelled beyond that order.
- The rows of the `groupby` result come in lexicographic label order before Altair re-sorts them. Only the displayed order is modelled (`BarsInLabelOrder`), and the bars are a sequence rather than a data frame.
- Streamlit's own checks that a widget's value is among its options are not modelled. The stored Brand selection is taken as stored, as the script does.
