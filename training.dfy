/**
 * The training-table contract of `PECDemandModel`: which columns become features, the
 * positional train/test split, and the `feature_names` the saved metadata hands to prediction.
 * The regressor and its fitting are opaque.
 */
module Training {
  import opened Wrappers
  import opened Seqs
  import opened Tables
  import opened Features
  import opened Text

  /** `exclude_cols` of `_prepare_data`. */
  const Excluded: seq<string> := [
    "date", "footfall", "pincode", "district", "state", "center_type", "day_name",
    "footfall_change_7d", "footfall_change_30d"
  ]

  function IsFeature(): string -> bool {
    c => c !in Excluded
  }

  /** `[col for col in df.columns if col not in exclude_cols]`. */
  function FeatureColumns(columns: seq<string>): (r: seq<string>)
    ensures |r| <= |columns|
  {
    Filter(columns, IsFeature())
  }

  /** The features are exactly the table's columns that are not excluded. */
  lemma FeatureColumnsSpec(columns: seq<string>)
    ensures forall i :: 0 <= i < |FeatureColumns(columns)| ==>
      FeatureColumns(columns)[i] in columns && FeatureColumns(columns)[i] !in Excluded
    ensures forall i :: 0 <= i < |columns| && columns[i] !in Excluded ==> columns[i] in FeatureColumns(columns)
  {
    FilterMembers(columns, IsFeature());
  }

  /** Selection keeps the table's column order: the features of two runs of columns are the features of each, in turn. */
  lemma FeatureColumnsOrder(a: seq<string>, b: seq<string>)
    ensures FeatureColumns(a + b) == FeatureColumns(a) + FeatureColumns(b)
  {
    FilterAppend(a, b, IsFeature());
  }

  /** `_prepare_data`: the feature column names, or the KeyError of `df['footfall']`. */
  function PrepareData(columns: seq<string>): (r: Result<seq<string>, Error>)
    ensures r.Err? <==> "footfall" !in columns
  {
    if "footfall" !in columns then Err(KeyError("footfall")) else Ok(FeatureColumns(columns))
  }

  /** `int(x)` of a float: truncation toward zero. */
  function Trunc(x: real): (r: int)
    ensures 0.0 <= x ==> r as real <= x < r as real + 1.0
    ensures x < 0.0 ==> r as real - 1.0 < x <= r as real
  {
    if x >= 0.0 then x.Floor else -((-x).Floor)
  }

  /** `int(len(df) * (1 - test_size))`. */
  function SplitIndex(n: nat, testSize: real): int {
    Trunc(n as real * (1.0 - testSize))
  }

  /** Where the slices `X[:k]` and `X[k:]` cut a sequence of `n` rows. */
  function SliceBound(k: int, n: nat): (r: nat)
    ensures r <= n
    ensures 0 <= k <= n ==> r == k
  {
    if k < 0 then (if k + n < 0 then 0 else k + n) else if k > n then n else k
  }

  datatype Split<T> = Split(train: seq<T>, test: seq<T>)

  /**
   * The split of `train_model`: `df.iloc[split_index]` raises IndexError unless the index names a
   * row, and `df.iloc[split_index - 1]` (the end of the training period) raises unless that one
   * does too, which fails only when `split_index` is `-n`. Otherwise the rows before the cut train
   * and the rest test.
   */
  function SplitRows<T>(rows: seq<T>, testSize: real): (r: Result<Split<T>, Error>)
    ensures r.Err? <==> !(-|rows| < SplitIndex(|rows|, testSize) < |rows|)
  {
    var k := SplitIndex(|rows|, testSize);
    if !(-|rows| <= k < |rows|) then Err(IndexError(k))
    else if k == -|rows| then Err(IndexError(k - 1))
    else
      var b := SliceBound(k, |rows|);
      Ok(Split(rows[..b], rows[b..]))
  }

  /**
   * A successful split is positional: the training rows are a prefix, the test rows the rest of
   * the table, each row lands in exactly one of them, and the test part is never empty.
   */
  lemma SplitPartition<T>(rows: seq<T>, testSize: real)
    requires SplitRows(rows, testSize).Ok?
    ensures var s := SplitRows(rows, testSize).value;
      && s.train + s.test == rows
      && s.train == rows[..|s.train|]
      && |s.test| > 0
  {
  }

  /**
   * With a test share in (0, 1] and a non-empty table the split succeeds, and the training part
   * holds the first floor(n * (1 - test_size)) rows.
   */
  lemma SplitProportion<T>(rows: seq<T>, testSize: real)
    requires |rows| > 0 && 0.0 < testSize <= 1.0
    ensures SplitRows(rows, testSize).Ok?
    ensures |SplitRows(rows, testSize).value.train| == (|rows| as real * (1.0 - testSize)).Floor
  {
    var n := |rows| as real;
    assert 0.0 <= n * (1.0 - testSize) < n by {
      Shrink(n, testSize);
    }
  }

  lemma Shrink(n: real, t: real)
    requires n > 0.0 && 0.0 < t <= 1.0
    ensures 0.0 <= n * (1.0 - t) < n
  {
    assert n * (1.0 - t) == n - n * t;
    assert n * t > 0.0;
  }

  /** An empty table has no row at `split_index`, so training stops with IndexError. */
  lemma EmptyTableFails<T>(rows: seq<T>, testSize: real)
    requires |rows| == 0
    ensures SplitRows(rows, testSize) == Err(IndexError(0))
  {
  }

  /**
   * A test share above 1 can give `split_index == -n`: `iloc[split_index]` is the first row, but
   * `iloc[split_index - 1]` names no row, so a one-row table with test_size 2 fails there.
   */
  lemma SplitAtMinusN<T>(x: T)
    ensures SplitIndex(1, 2.0) == -1
    ensures SplitRows([x], 2.0) == Err(IndexError(-2))
  {
    assert 1 as real * (1.0 - 2.0) == -1.0;
    assert Trunc(-1.0) == -1;
  }

  /**
   * The split ignores dates: in a table sorted by PIN code and then date, a test row can be
   * dated before a training row. Here PIN code 110001 on day 5 trains and 110002 on day 1 tests.
   */
  lemma SplitIsNotByDate(district: Cell, state: Cell)
    ensures var a := Observation(5, "110001", 120, district, state, "Urban");
      var b := Observation(1, "110002", 80, district, state, "Rural");
      && SortedBy([a, b], ObsLe)
      && SplitRows([a, b], 0.5) == Ok(Split([a], [b]))
      && b.date < a.date
  {
    var a := Observation(5, "110001", 120, district, state, "Urban");
    var b := Observation(1, "110002", 80, district, state, "Rural");
    assert StrLe(a.pincode, b.pincode) by {
      assert a.pincode[..5] == b.pincode[..5];
      assert a.pincode[5] < b.pincode[5];
      PrefixThenLess(a.pincode, b.pincode, 5);
    }
    assert ObsLe(a, b);
    assert 2 as real * (1.0 - 0.5) == 1.0;
    assert Trunc(1.0) == 1;
    assert [a, b][..1] == [a] && [a, b][1..] == [b];
  }

  /** Two strings that agree on their first `k` characters and then differ upwards are in string order. */
  lemma {:induction false} PrefixThenLess(x: string, y: string, k: nat)
    requires k < |x| && k < |y| && x[..k] == y[..k] && x[k] < y[k]
    ensures StrLe(x, y)
    decreases k
  {
    if k > 0 {
      assert x[0] == x[..k][0] == y[..k][0] == y[0];
      assert x[1..][..k - 1] == x[..k][1..] && y[1..][..k - 1] == y[..k][1..];
      PrefixThenLess(x[1..], y[1..], k - 1);
    }
  }

  /** The regressor: feature values in `feature_names` order to a footfall estimate. */
  type Regressor = seq<Value> -> real

  /** The metadata `_save_model` writes (the timestamps and error metrics are left out). */
  datatype Metadata = Metadata(featureNames: seq<string>, modelType: string)

  /** `PECDemandModel`: the fitted model and the feature names it was fitted on. */
  class DemandModel {
    var model: Option<Regressor>
    var featureNames: Option<seq<string>>

    constructor()
      ensures model == None && featureNames == None
    {
      model := None;
      featureNames := None;
    }

    /**
     * `train_model` on the rows of the feature table and its column names; `fit` stands for
     * XGBoost fitted on the training rows' feature columns. Reading `df['date']` fails first
     * without a date column; `feature_names` is set before the split, so it is updated even when
     * the split then fails.
     */
    method TrainModel(columns: seq<string>, rows: seq<FeatureRow>, testSize: real,
                      fit: (seq<string>, seq<FeatureRow>) -> Regressor) returns (r: Result<Regressor, Error>)
      modifies this
      ensures "date" !in columns ==>
        r == Err(KeyError("date")) && model == old(model) && featureNames == old(featureNames)
      ensures "date" in columns && PrepareData(columns).Err? ==>
        r == Err(KeyError("footfall")) && model == old(model) && featureNames == old(featureNames)
      ensures "date" in columns && PrepareData(columns).Ok? ==> featureNames == Some(FeatureColumns(columns))
      ensures "date" in columns && PrepareData(columns).Ok? && SplitRows(rows, testSize).Err? ==>
        r == Err(SplitRows(rows, testSize).error) && model == old(model)
      ensures "date" in columns && PrepareData(columns).Ok? && SplitRows(rows, testSize).Ok? ==>
        r == Ok(fit(FeatureColumns(columns), SplitRows(rows, testSize).value.train)) && model == Some(r.value)
    {
      if "date" !in columns {
        return Err(KeyError("date"));
      }
      var prepared := PrepareData(columns);
      if prepared.Err? {
        return Err(prepared.error);
      }
      featureNames := Some(prepared.value);
      var split := SplitRows(rows, testSize);
      if split.Err? {
        return Err(split.error);
      }
      var fitted := fit(prepared.value, split.value.train);
      model := Some(fitted);
      r := Ok(fitted);
    }

    /** `_save_model`: the metadata records the feature names the model was trained on, in order. */
    method SaveModel() returns (meta: Metadata)
      requires model.Some? && featureNames.Some?
      ensures meta.featureNames == featureNames.value && meta.modelType == "XGBoost Regressor"
    {
      meta := Metadata(featureNames.value, "XGBoost Regressor");
    }
  }
}
