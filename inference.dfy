/**
 * `PECPredictor`: a feature vector per (PIN code, date) request, read from the stored feature
 * table when that table already has the row, and otherwise rebuilt from the PIN code's latest
 * observations; the regressor turns it into a non-negative integer footfall.
 */
module Inference {
  import opened Wrappers
  import opened Seqs
  import opened Calendar
  import opened Tables
  import opened Features
  import opened Text

  /** One row of the processed feature table the predictor loads as its history. */
  datatype HistoryRow = HistoryRow(
    date: nat, pincode: string, footfall: int, district: string, state: string, centerType: string,
    stored: map<string, Value>)

  /** What `pincode_info` keeps of a PIN code: the descriptive columns of its first row. */
  datatype PinInfo = PinInfo(district: string, state: string, centerType: string)

  /**
   * A loaded predictor: the trained feature list, the history table, and the regressor as an
   * opaque function from a feature vector (in `featureNames` order) to its float prediction.
   */
  datatype Predictor = Predictor(featureNames: seq<string>, history: seq<HistoryRow>, model: seq<Value> -> real)

  /** The history table has every trained feature as a column: metadata and table come from one training run. */
  ghost predicate Valid(p: Predictor) {
    forall i :: 0 <= i < |p.history| ==> Covers(p.history[i].stored, p.featureNames)
  }

  /** A row whose columns include every name. */
  predicate Covers(row: map<string, Value>, names: seq<string>) {
    forall k :: 0 <= k < |names| ==> names[k] in row
  }

  // ---------------------------------------------------------------- PIN code info

  function InfoOf(row: HistoryRow): PinInfo {
    PinInfo(row.district, row.state, row.centerType)
  }

  /** The pincode column. */
  function PinsOf(h: seq<HistoryRow>): (r: seq<string>)
    ensures |r| == |h| && forall i :: 0 <= i < |h| ==> r[i] == h[i].pincode
  {
    if |h| == 0 then [] else PinsOf(h[..|h| - 1]) + [h[|h| - 1].pincode]
  }

  /** `_get_pincode_info`: every PIN code of the history, with the columns of its first row. */
  function PincodeInfo(h: seq<HistoryRow>): (r: map<string, PinInfo>)
    ensures forall pin :: pin in r <==> pin in PinsOf(h)
  {
    if |h| == 0 then map[]
    else
      var r := PincodeInfo(h[..|h| - 1]);
      var last := h[|h| - 1];
      assert PinsOf(h) == PinsOf(h[..|h| - 1]) + [last.pincode];
      if last.pincode in r then r else r[last.pincode := InfoOf(last)]
  }

  /** One more row enters its PIN code unless that PIN code is already known. */
  lemma PincodeInfoStep(h: seq<HistoryRow>, i: nat)
    requires i < |h|
    ensures var before := PincodeInfo(h[..i]);
      PincodeInfo(h[..i + 1]) == if h[i].pincode in before then before else before[h[i].pincode := InfoOf(h[i])]
  {
    assert h[..i + 1][..i] == h[..i];
  }

  /** The info of a PIN code is taken from its first row (`.iloc[0]`). */
  lemma {:induction false} InfoFromFirstRow(h: seq<HistoryRow>, i: nat)
    requires i < |h| && forall j :: 0 <= j < i ==> h[j].pincode != h[i].pincode
    ensures h[i].pincode in PincodeInfo(h) && PincodeInfo(h)[h[i].pincode] == InfoOf(h[i])
  {
    if i < |h| - 1 {
      InfoFromFirstRow(h[..|h| - 1], i);
    } else {
      assert h[i].pincode !in PinsOf(h[..|h| - 1]);
    }
  }

  /** The loop of `_get_pincode_info`: a PIN code is entered when it is met for the first time. */
  method GetPincodeInfo(h: seq<HistoryRow>) returns (info: map<string, PinInfo>)
    ensures info == PincodeInfo(h)
  {
    info := map[];
    var i := 0;
    while i < |h|
      invariant 0 <= i <= |h| && info == PincodeInfo(h[..i])
    {
      PincodeInfoStep(h, i);
      if h[i].pincode !in info {
        info := info[h[i].pincode := InfoOf(h[i])];
      }
      i := i + 1;
    }
    assert h[..|h|] == h;
  }

  // ---------------------------------------------------------------- the PIN code's history

  predicate DateLe(a: HistoryRow, b: HistoryRow) {
    a.date <= b.date
  }

  lemma DateLeTotalPreorder()
    ensures TotalPreorder(DateLe)
  {
  }

  /** `pincode == pin` as a row filter. */
  function OfPin(pin: string): HistoryRow -> bool {
    (row: HistoryRow) => row.pincode == pin
  }

  /** `date < target` as a row filter. */
  function Before(target: nat): HistoryRow -> bool {
    (row: HistoryRow) => row.date < target
  }

  /** `historical_data[historical_data['pincode'] == pin].sort_values('date')`. */
  function PinHistory(h: seq<HistoryRow>, pin: string): (r: seq<HistoryRow>)
    ensures |r| <= |h|
  {
    SortBy(Filter(h, OfPin(pin)), DateLe)
  }

  /** The PIN code's history is ordered by date and holds exactly the rows of that PIN code. */
  lemma PinHistorySpec(h: seq<HistoryRow>, pin: string)
    ensures SortedBy(PinHistory(h, pin), DateLe)
    ensures forall k :: 0 <= k < |PinHistory(h, pin)| ==> PinHistory(h, pin)[k] in h && PinHistory(h, pin)[k].pincode == pin
    ensures forall i :: 0 <= i < |h| && h[i].pincode == pin ==> h[i] in PinHistory(h, pin)
  {
    var rows := Filter(h, OfPin(pin));
    var r := PinHistory(h, pin);
    DateLeTotalPreorder();
    SortBySpec(rows, DateLe);
    FilterMembers(h, OfPin(pin));
    forall k | 0 <= k < |r| ensures r[k] in h && r[k].pincode == pin {
      assert r[k] in multiset(rows);
      var j :| 0 <= j < |rows| && rows[j] == r[k];
      assert OfPin(pin)(rows[j]);
    }
    forall i | 0 <= i < |h| && h[i].pincode == pin ensures h[i] in r {
      assert OfPin(pin)(h[i]);
      assert h[i] in multiset(rows);
    }
  }

  /** A PIN code of the info table has history rows. */
  lemma KnownPinHasHistory(h: seq<HistoryRow>, pin: string)
    requires pin in PincodeInfo(h)
    ensures |PinHistory(h, pin)| > 0
  {
    var i :| 0 <= i < |h| && PinsOf(h)[i] == pin;
    PinHistorySpec(h, pin);
    assert h[i] in PinHistory(h, pin);
  }

  function FootfallsOf(rows: seq<HistoryRow>): (r: seq<real>)
    ensures |r| == |rows|
  {
    seq(|rows|, k requires 0 <= k < |rows| => rows[k].footfall as real)
  }

  /** `pin_history[pin_history['date'] < target].tail(60)['footfall']`. */
  function RecentFootfalls(rows: seq<HistoryRow>, target: nat): seq<real> {
    Tail(FootfallsOf(Filter(rows, Before(target))), 60)
  }

  /** No leakage at inference: the window holds at most 60 footfalls of the PIN code, all dated before the target. */
  lemma RecentIsEarlier(h: seq<HistoryRow>, pin: string, target: nat)
    ensures |RecentFootfalls(PinHistory(h, pin), target)| <= 60
    ensures forall k :: 0 <= k < |RecentFootfalls(PinHistory(h, pin), target)| ==>
      exists i :: 0 <= i < |h| && h[i].pincode == pin && h[i].date < target &&
        h[i].footfall as real == RecentFootfalls(PinHistory(h, pin), target)[k]
  {
    var rows := PinHistory(h, pin);
    var before := Filter(rows, Before(target));
    var f := FootfallsOf(before);
    var r := RecentFootfalls(rows, target);
    PinHistorySpec(h, pin);
    FilterMembers(rows, Before(target));
    forall k | 0 <= k < |r|
      ensures exists i :: 0 <= i < |h| && h[i].pincode == pin && h[i].date < target && h[i].footfall as real == r[k]
    {
      var j := |f| - |r| + k;
      assert r[k] == f[j] == before[j].footfall as real;
      assert Before(target)(before[j]);
      assert before[j] in rows;
      var i :| 0 <= i < |h| && h[i] == before[j];
    }
  }

  /** With no observation of the PIN code before the target, the window is empty. */
  lemma NoEarlierRows(h: seq<HistoryRow>, pin: string, target: nat)
    requires forall i :: 0 <= i < |h| && h[i].pincode == pin ==> h[i].date >= target
    ensures RecentFootfalls(PinHistory(h, pin), target) == []
  {
    var rows := PinHistory(h, pin);
    PinHistorySpec(h, pin);
    forall k | 0 <= k < |rows| ensures !Before(target)(rows[k]) {
      var i :| 0 <= i < |h| && h[i] == rows[k];
    }
    FilterNone(rows, Before(target));
  }

  // ---------------------------------------------------------------- lag features at inference

  /** The cold-start values used when the PIN code has no earlier observation. */
  const ColdStart := LagFeatures(
    Number(100.0), Number(100.0), Number(100.0),
    Number(100.0), Number(100.0), Number(100.0),
    Number(10.0), Number(150.0), Number(50.0))

  /** `recent.iloc[-k]['footfall']` when there are `k` observations, else the mean of all of them. */
  function LagOrMean(xs: seq<real>, k: nat): Value
    requires |xs| > 0 && k >= 1
  {
    if |xs| >= k then Number(xs[|xs| - k]) else Number(Mean(xs))
  }

  /** `tail(7)['footfall'].std() or 10` as written: a zero deviation becomes 10, a missing one (NaN, which is truthy) stays. */
  function StdOrTenAsWritten(win: seq<real>): Value {
    match SampleVariance(win)
    case None => NaN
    case Some(v) => if v == 0.0 then Number(10.0) else Sqrt(v)
  }

  /** The evidently intended fallback: 10 wherever the deviation is zero or undefined. */
  function StdOrTen(win: seq<real>): (r: Value)
    ensures r != NaN
  {
    match SampleVariance(win)
    case None => Number(10.0)
    case Some(v) => if v == 0.0 then Number(10.0) else Sqrt(v)
  }

  /** `_calculate_lag_features` for a non-empty window, given its deviation feature. */
  function WindowLags(xs: seq<real>, std7: Value): LagFeatures
    requires |xs| > 0
  {
    LagFeatures(
      LagOrMean(xs, 7), LagOrMean(xs, 14), LagOrMean(xs, 30),
      Number(Mean(Tail(xs, 7))), Number(Mean(Tail(xs, 14))), Number(Mean(Tail(xs, 30))),
      std7, Number(MaxOf(Tail(xs, 30))), Number(MinOf(Tail(xs, 30))))
  }

  /** `_calculate_lag_features` as written. */
  function RecentLagsAsWritten(xs: seq<real>): LagFeatures {
    if |xs| == 0 then ColdStart else WindowLags(xs, StdOrTenAsWritten(Tail(xs, 7)))
  }

  /** `_calculate_lag_features` with the deviation fallback applied to a missing deviation too. */
  function RecentLags(xs: seq<real>): LagFeatures {
    if |xs| == 0 then ColdStart else WindowLags(xs, StdOrTen(Tail(xs, 7)))
  }

  predicate LagsPresent(l: LagFeatures) {
    && l.lag7 != NaN && l.lag14 != NaN && l.lag30 != NaN
    && l.mean7 != NaN && l.mean14 != NaN && l.mean30 != NaN
    && l.std7 != NaN && l.max30 != NaN && l.min30 != NaN
  }

  /**
   * As written, a single earlier observation leaves the deviation missing although every other
   * lag feature is present; the corrected fallback gives 10 there.
   */
  lemma SingleObservationStd(x: real)
    ensures RecentLagsAsWritten([x]).std7 == NaN
    ensures RecentLags([x]).std7 == Number(10.0)
  {
  }

  /** As written, the deviation is missing exactly when the window holds a single observation. */
  lemma AsWrittenStdMissing(xs: seq<real>)
    ensures RecentLagsAsWritten(xs).std7 == NaN <==> |xs| == 1
  {
    if |xs| >= 2 {
      assert |Tail(xs, 7)| >= 2;
    }
  }

  /** With the corrected fallback no lag feature is ever missing. */
  lemma RecentLagsPresent(xs: seq<real>)
    ensures LagsPresent(RecentLags(xs))
  {
  }

  /** The two fallbacks give the same lag features except on a window of exactly one observation. */
  lemma AsWrittenAgreesWithIntended(xs: seq<real>)
    ensures RecentLagsAsWritten(xs) == RecentLags(xs) <==> |xs| != 1
  {
    if |xs| >= 2 {
      assert |Tail(xs, 7)| >= 2;
    }
  }

  /** Short history: with `n` observations the lag `k` is the `k`-th last one if `n >= k`, else their mean; the statistics use the last `min(w, n)`. */
  lemma ShortHistory(xs: seq<real>, k: nat)
    requires 0 < |xs| < k
    ensures LagOrMean(xs, k) == Number(Mean(xs))
    ensures Tail(xs, k) == xs
  {
  }

  /** A window of equal footfalls `c`: every lag and statistic is `c` and the deviation falls back to 10. */
  lemma ConstantWindow(xs: seq<real>, c: real)
    requires |xs| > 0 && forall k :: 0 <= k < |xs| ==> xs[k] == c
    ensures var l := RecentLags(xs);
      && l.lag7 == l.lag14 == l.lag30 == Number(c)
      && l.mean7 == l.mean14 == l.mean30 == Number(c)
      && l.max30 == l.min30 == Number(c)
      && l.std7 == Number(10.0)
    ensures |xs| >= 2 ==> RecentLagsAsWritten(xs) == RecentLags(xs)
  {
    ConstantLags(xs, c);
    AsWrittenAgreesWithIntended(xs);
  }

  lemma ConstantLags(xs: seq<real>, c: real)
    requires |xs| > 0 && forall k :: 0 <= k < |xs| ==> xs[k] == c
    ensures var l := RecentLags(xs);
      && l.lag7 == l.lag14 == l.lag30 == Number(c)
      && l.mean7 == l.mean14 == l.mean30 == Number(c)
      && l.max30 == l.min30 == Number(c)
      && l.std7 == Number(10.0)
  {
    ConstantAggregates(xs, c);
    ConstantAggregates(Tail(xs, 7), c);
    ConstantAggregates(Tail(xs, 14), c);
    ConstantAggregates(Tail(xs, 30), c);
    if |Tail(xs, 7)| >= 2 {
      ConstantVariance(Tail(xs, 7), c);
    }
  }

  // ---------------------------------------------------------------- agreement with training

  /**
   * When the inference window is the history of training row `i` and that history has at least
   * 30 rows, every lag, rolling mean, maximum and minimum equals the training table's value.
   */
  lemma AgreesWithTraining(s: seq<Observation>, i: nat)
    requires SortedBy(s, ObsLe) && i < |s| && |History(s, i)| >= 30
    ensures var a := RecentLagsAsWritten(Tail(History(s, i), 60)); var b := LagsOf(s, i);
      && a.lag7 == b.lag7 && a.lag14 == b.lag14 && a.lag30 == b.lag30
      && a.mean7 == b.mean7 && a.mean14 == b.mean14 && a.mean30 == b.mean30
      && a.max30 == b.max30 && a.min30 == b.min30
  {
    GroupIsRun(s, i);
    HistoryIsRun(s, i);
    var h := History(s, i);
    AgreeOnWindow(h);
    AsWrittenAgreesWithIntended(Tail(h, 60));
    RollingUsesHistory(s, i, 7, RollMean);
    RollingUsesHistory(s, i, 14, RollMean);
    RollingUsesHistory(s, i, 30, RollMean);
    RollingUsesHistory(s, i, 30, RollMax);
    RollingUsesHistory(s, i, 30, RollMin);
  }

  lemma AgreeOnWindow(h: seq<real>)
    requires |h| >= 30
    ensures var a := RecentLags(Tail(h, 60));
      && a.lag7 == Lag(h, 7) && a.lag14 == Lag(h, 14) && a.lag30 == Lag(h, 30)
      && a.mean7 == Summary(RollMean, Tail(h, 7)) && a.mean14 == Summary(RollMean, Tail(h, 14))
      && a.mean30 == Summary(RollMean, Tail(h, 30))
      && a.max30 == Summary(RollMax, Tail(h, 30)) && a.min30 == Summary(RollMin, Tail(h, 30))
  {
    TailOfTail(h, 60, 7);
    TailOfTail(h, 60, 14);
    TailOfTail(h, 60, 30);
  }

  /** Where both are defined and the window is not constant, the deviation matches training too. */
  lemma StdAgrees(win: seq<real>)
    requires |win| >= 2 && SampleVariance(win).value != 0.0
    ensures StdOrTen(win) == Summary(RollStd, win) == StdOrTenAsWritten(win)
  {
  }

  // ---------------------------------------------------------------- the feature dictionary

  /** The feature groups the general path builds. */
  datatype Built = Built(temporal: Temporal, geo: Geographic, lags: LagFeatures, inter: Interactions)

  function Int(i: int): Value {
    Number(i as real)
  }

  /** `type_mapping.get(center_type, 1)`. */
  function TypeCodeOrOne(t: string): (r: Value)
    ensures TypeCode(t) != NaN ==> r == TypeCode(t)
    ensures TypeCode(t) == NaN ==> r == Number(1.0)
  {
    if t == "Rural" then Number(0.0)
    else if t == "Urban" then Number(2.0)
    else Number(1.0)
  }

  /** `_encode_categorical`: the value's position among the column's distinct values, 0 when unseen. */
  function EncodeCategorical(column: seq<string>, value: string): (r: nat)
    ensures value !in column ==> r == 0
  {
    if value in column then Code(column, value) else 0
  }

  /** A value that first appears at row `i` is encoded as the number of distinct values seen before it. */
  lemma EncodeFirstAppearance(column: seq<string>, i: nat)
    requires i < |column| && column[i] !in column[..i]
    ensures EncodeCategorical(column, column[i]) == |Distinct(column[..i])|
  {
    CodeIsFirstAppearanceRank(column, i);
  }

  function StatesOf(h: seq<HistoryRow>): seq<string> {
    seq(|h|, k requires 0 <= k < |h| => h[k].state)
  }

  function DistrictsOf(h: seq<HistoryRow>): seq<string> {
    seq(|h|, k requires 0 <= k < |h| => h[k].district)
  }

  /**
   * The general path of `_build_features`, as written: holiday flags are 0, since no calendar is
   * loaded, and the lag features use the deviation fallback that keeps a missing deviation.
   */
  function General(p: Predictor, pin: string, target: nat): Built
    requires pin in PincodeInfo(p.history)
  {
    var info := PincodeInfo(p.history)[pin];
    var t := TemporalOf(target, false, false);
    var ct := info.centerType;
    var g := Geographic(
      TypeCodeOrOne(ct), Flag(ct == "Urban"), Flag(ct == "Rural"),
      EncodeCategorical(StatesOf(p.history), info.state),
      EncodeCategorical(DistrictsOf(p.history), info.district), pin);
    var l := RecentLagsAsWritten(RecentFootfalls(PinHistory(p.history, pin), target));
    Built(t, g, l, InteractionsOf(t, g, l))
  }

  /**
   * On the general path the deviation feature is missing exactly when the PIN code has a single
   * observation before the target; otherwise the built lags are the intended ones.
   */
  lemma GeneralStdMissing(p: Predictor, pin: string, target: nat)
    requires pin in PincodeInfo(p.history)
    ensures var w := RecentFootfalls(PinHistory(p.history, pin), target);
      && (General(p, pin, target).lags.std7 == NaN <==> |w| == 1)
      && (|w| != 1 ==> General(p, pin, target).lags == RecentLags(w))
  {
    var w := RecentFootfalls(PinHistory(p.history, pin), target);
    AsWrittenStdMissing(w);
    AsWrittenAgreesWithIntended(w);
  }

  /** `features[name]` for the dictionary the general path builds; None for a name it does not hold. */
  function Feature(b: Built, name: string): Option<Value> {
    var t := b.temporal;
    var g := b.geo;
    var l := b.lags;
    var x := b.inter;
    if name == "day_of_week" then Some(Int(t.dayOfWeek))
    else if name == "is_weekend" then Some(Int(t.isWeekend))
    else if name == "is_monday" then Some(Int(t.isMonday))
    else if name == "month" then Some(Int(t.month))
    else if name == "quarter" then Some(Int(t.quarter))
    else if name == "week_of_month" then Some(Int(t.weekOfMonth))
    else if name == "day_of_month" then Some(Int(t.dayOfMonth))
    else if name == "is_first_week" then Some(Int(t.isFirstWeek))
    else if name == "day_of_year" then Some(Int(t.dayOfYear))
    else if name == "is_holiday" then Some(Int(t.isHoliday))
    else if name == "is_day_after_holiday" then Some(Int(t.isDayAfterHoliday))
    else if name == "is_enrollment_season" then Some(Int(t.isEnrollmentSeason))
    else if name == "is_pension_month" then Some(Int(t.isPensionMonth))
    else if name == "is_festival_season" then Some(Int(t.isFestivalSeason))
    else if name == "center_type_encoded" then Some(g.centerTypeEncoded)
    else if name == "is_urban" then Some(Int(g.isUrban))
    else if name == "is_rural" then Some(Int(g.isRural))
    else if name == "state_encoded" then Some(Int(g.stateEncoded))
    else if name == "district_encoded" then Some(Int(g.districtEncoded))
    else if name == "footfall_lag_7" then Some(l.lag7)
    else if name == "footfall_lag_14" then Some(l.lag14)
    else if name == "footfall_lag_30" then Some(l.lag30)
    else if name == "footfall_rolling_mean_7" then Some(l.mean7)
    else if name == "footfall_rolling_mean_14" then Some(l.mean14)
    else if name == "footfall_rolling_mean_30" then Some(l.mean30)
    else if name == "footfall_rolling_std_7" then Some(l.std7)
    else if name == "footfall_rolling_max_30" then Some(l.max30)
    else if name == "footfall_rolling_min_30" then Some(l.min30)
    else if name == "rural_pension_interaction" then Some(Int(x.ruralPension))
    else if name == "urban_enrollment_interaction" then Some(Int(x.urbanEnrollment))
    else if name == "monday_first_week" then Some(Int(x.mondayFirstWeek))
    else if name == "weekend_holiday" then Some(Int(x.weekendHoliday))
    else if name == "lag_ratio_7_to_30" then Some(x.lagRatio)
    else if name == "pincode_category" then Some(Label(g.pincodeCategory))
    else None
  }

  /** On the general path both holiday flags and the weekend-holiday interaction are always 0. */
  lemma HolidayFlagsZero(p: Predictor, pin: string, target: nat)
    requires pin in PincodeInfo(p.history)
    ensures var b := General(p, pin, target);
      && Feature(b, "is_holiday") == Some(Number(0.0))
      && Feature(b, "is_day_after_holiday") == Some(Number(0.0))
      && Feature(b, "weekend_holiday") == Some(Number(0.0))
  {
    var b := General(p, pin, target);
    assert b.temporal.isHoliday == 0 && b.temporal.isDayAfterHoliday == 0 && b.inter.weekendHoliday == 0;
    HolidayEntries(b);
    WeekendHolidayEntry(b);
  }

  lemma HolidayEntries(b: Built)
    ensures Feature(b, "is_holiday") == Some(Int(b.temporal.isHoliday))
    ensures Feature(b, "is_day_after_holiday") == Some(Int(b.temporal.isDayAfterHoliday))
  {
  }

  lemma WeekendHolidayEntry(b: Built)
    ensures Feature(b, "weekend_holiday") == Some(Int(b.inter.weekendHoliday))
  {
  }

  /** The columns `feature_df[feat] = 0` adds: every trained feature the dictionary lacks, as 0. */
  function ZeroColumns(b: Built, names: seq<string>): (r: map<string, Value>)
    ensures forall n :: n in r <==> n in names && Feature(b, n).None?
    ensures forall n :: n in r ==> r[n] == Number(0.0)
  {
    if |names| == 0 then map[]
    else
      var r := ZeroColumns(b, names[..|names| - 1]);
      var n := names[|names| - 1];
      assert forall m :: m in names <==> m in names[..|names| - 1] || m == n;
      if Feature(b, n).None? && n !in r then r[n := Number(0.0)] else r
  }

  /** The zero-fill loop of `_build_features`. */
  method ZeroFill(b: Built, names: seq<string>) returns (added: map<string, Value>)
    ensures added == ZeroColumns(b, names)
  {
    added := map[];
    for i := 0 to |names|
      invariant added == ZeroColumns(b, names[..i])
    {
      assert names[..i + 1][..i] == names[..i];
      if Feature(b, names[i]).None? && names[i] !in added {
        added := added[names[i] := Number(0.0)];
      }
    }
    assert names[..|names|] == names;
  }

  /** `feature_df[feature_names]` after the zero-fill: each built feature, or its added column. */
  function Reindex(b: Built, added: map<string, Value>, names: seq<string>): (r: seq<Value>)
    requires forall k :: 0 <= k < |names| ==> Feature(b, names[k]).Some? || names[k] in added
    ensures |r| == |names|
  {
    seq(|names|, k requires 0 <= k < |names| =>
      if Feature(b, names[k]).Some? then Feature(b, names[k]).value else added[names[k]])
  }

  /** `df[feature_names]` of a one-row frame whose columns include every name. */
  function Select(row: map<string, Value>, names: seq<string>): (r: seq<Value>)
    requires Covers(row, names)
    ensures |r| == |names| && forall k :: 0 <= k < |names| ==> r[k] == row[names[k]]
  {
    seq(|names|, k requires 0 <= k < |names| => row[names[k]])
  }

  // ---------------------------------------------------------------- building the vector

  /** `(pincode == pin) & (date == target)` of a row. */
  predicate IsRequest(row: HistoryRow, pin: string, target: nat) {
    row.pincode == pin && row.date == target
  }

  /** `historical_data[(pincode == pin) & (date == target)].iloc[0]`: the position of the first stored row for the request. */
  function StoredIndex(h: seq<HistoryRow>, pin: string, target: nat): (r: Option<nat>)
    ensures r.Some? ==> r.value < |h| && IsRequest(h[r.value], pin, target)
    ensures r.Some? ==> forall j :: 0 <= j < r.value ==> !IsRequest(h[j], pin, target)
    ensures r.None? ==> forall i :: 0 <= i < |h| ==> !IsRequest(h[i], pin, target)
  {
    if |h| == 0 then None
    else if IsRequest(h[0], pin, target) then Some(0)
    else
      match StoredIndex(h[1..], pin, target)
      case None => None
      case Some(i) => Some(i + 1)
  }

  /**
   * `_build_features`: None when the PIN code has no history; the stored row when the target is
   * not after the last observation and a row for it exists; otherwise the general path, with every
   * missing trained feature set to 0, in `featureNames` order.
   */
  function FeatureVector(p: Predictor, pin: string, target: nat): (r: Option<seq<Value>>)
    requires Valid(p) && pin in PincodeInfo(p.history)
    ensures r.Some? ==> |r.value| == |p.featureNames|
  {
    var rows := PinHistory(p.history, pin);
    if |rows| == 0 then None
    else
      var stored := StoredIndex(p.history, pin, target);
      if target <= rows[|rows| - 1].date && stored.Some? then
        Some(Select(p.history[stored.value].stored, p.featureNames))
      else
        var b := General(p, pin, target);
        Some(Reindex(b, ZeroColumns(b, p.featureNames), p.featureNames))
  }

  /** A known PIN code always gets a vector: its history is never empty. */
  lemma VectorExists(p: Predictor, pin: string, target: nat)
    requires Valid(p) && pin in PincodeInfo(p.history)
    ensures FeatureVector(p, pin, target).Some?
  {
    KnownPinHasHistory(p.history, pin);
  }

  /** The fast path is taken exactly when the history has a row for the request, and returns that row's features. */
  lemma FastPath(p: Predictor, pin: string, target: nat)
    requires Valid(p) && pin in PincodeInfo(p.history) && StoredIndex(p.history, pin, target).Some?
    ensures FeatureVector(p, pin, target) == Some(Select(p.history[StoredIndex(p.history, pin, target).value].stored, p.featureNames))
  {
    StoredNotAfterLast(p.history, pin, target);
  }

  /** A stored row for the request lies in the PIN code's history, so the target is not after its last date. */
  lemma StoredNotAfterLast(h: seq<HistoryRow>, pin: string, target: nat)
    requires StoredIndex(h, pin, target).Some?
    ensures |PinHistory(h, pin)| > 0 && target <= PinHistory(h, pin)[|PinHistory(h, pin)| - 1].date
  {
    var rows := PinHistory(h, pin);
    var i := StoredIndex(h, pin, target).value;
    PinHistorySpec(h, pin);
    assert h[i] in rows;
    LatestLast(rows, h[i]);
  }

  /** In a date-sorted history, no row is dated after the last one. */
  lemma LatestLast(rows: seq<HistoryRow>, x: HistoryRow)
    requires SortedBy(rows, DateLe) && x in rows
    ensures x.date <= rows[|rows| - 1].date
  {
    var k :| 0 <= k < |rows| && rows[k] == x;
    if k < |rows| - 1 {
      assert DateLe(rows[k], rows[|rows| - 1]);
    }
  }

  /** Without a stored row, each trained feature is the built one, or 0 when the general path does not build it. */
  lemma GeneralPath(p: Predictor, pin: string, target: nat)
    requires Valid(p) && pin in PincodeInfo(p.history) && StoredIndex(p.history, pin, target).None?
    ensures var v := FeatureVector(p, pin, target); var b := General(p, pin, target);
      && v.Some?
      && forall k :: 0 <= k < |p.featureNames| ==>
        v.value[k] == if Feature(b, p.featureNames[k]).Some? then Feature(b, p.featureNames[k]).value else Number(0.0)
  {
    VectorExists(p, pin, target);
  }

  /**
   * Without a stored row, the `pincode_category` entry is the requested PIN code as text, while
   * the training table, read back from CSV, holds that digit-only column as integers.
   */
  lemma GeneralCategoryIsText(p: Predictor, pin: string, target: nat, k: nat)
    requires Valid(p) && pin in PincodeInfo(p.history) && StoredIndex(p.history, pin, target).None?
    requires k < |p.featureNames| && p.featureNames[k] == "pincode_category"
    ensures FeatureVector(p, pin, target).Some? && FeatureVector(p, pin, target).value[k] == Label(pin)
  {
    var b := General(p, pin, target);
    GeneralPath(p, pin, target);
    assert b.geo.pincodeCategory == pin;
    CategoryFeature(b);
  }

  lemma CategoryFeature(b: Built)
    ensures Feature(b, "pincode_category") == Some(Label(b.geo.pincodeCategory))
  {
  }

  /** The value `read_csv` gives a `pincode_category` cell: the integer its text writes, or the text itself. */
  function IntendedCategory(pin: string): Value {
    match ParseInt(pin)
    case Some(n) => Number(n as real)
    case None => Label(pin)
  }

  /** A PIN code of decimal digits becomes the number those digits write, as in the training table. */
  lemma IntendedCategoryOfDigits(pin: string)
    requires AllDigits(pin)
    ensures IntendedCategory(pin) == Number(DigitsValue(pin) as real)
  {
    StripTrimmed(pin);
    UndigitsOfDigits(pin);
  }

  /** The general path builds its vector with the zero-fill loop. */
  method BuildFeatures(p: Predictor, pin: string, target: nat) returns (r: Option<seq<Value>>)
    requires Valid(p) && pin in PincodeInfo(p.history)
    ensures r == FeatureVector(p, pin, target)
  {
    var rows := PinHistory(p.history, pin);
    var stored := StoredIndex(p.history, pin, target);
    if |rows| > 0 && target <= rows[|rows| - 1].date && stored.Some? {
      return Some(Select(p.history[stored.value].stored, p.featureNames));
    }
    var b := General(p, pin, target);
    var added := ZeroFill(b, p.featureNames);
    r := if |rows| == 0 then None else Some(Reindex(b, added, p.featureNames));
  }

  // ---------------------------------------------------------------- predictions

  /** Python's `round` of a float: to the nearest integer, ties to the even one. */
  function RoundHalfEven(x: real): (r: int)
    ensures x - 0.5 <= r as real <= x + 0.5
    ensures (r as real == x + 0.5 || r as real == x - 0.5) ==> r % 2 == 0
  {
    var f := x.Floor;
    var frac := x - f as real;
    if frac < 0.5 then f
    else if frac > 0.5 then f + 1
    else if f % 2 == 0 then f else f + 1
  }

  /** `predict_single_day`: None for an unknown PIN code, else the rounded prediction clamped at 0. */
  function Prediction(p: Predictor, pin: string, target: nat): (r: Option<nat>)
    requires Valid(p)
    ensures r.None? <==> pin !in PincodeInfo(p.history)
  {
    if pin !in PincodeInfo(p.history) then None
    else
      VectorExists(p, pin, target);
      match FeatureVector(p, pin, target)
      case None => None
      case Some(x) => Some(Clamp(RoundHalfEven(p.model(x))))
  }

  /** `max(0, n)`. */
  function Clamp(n: int): nat {
    if n < 0 then 0 else n
  }

  /** The prediction is within half a unit of the regressor's output, or 0 when that output rounds below 0. */
  lemma PredictionNearModel(p: Predictor, pin: string, target: nat)
    requires Valid(p) && pin in PincodeInfo(p.history)
    ensures FeatureVector(p, pin, target).Some? && Prediction(p, pin, target).Some?
    ensures var y := p.model(FeatureVector(p, pin, target).value); var n := Prediction(p, pin, target).value;
      && (y >= 0.5 ==> y - 0.5 <= n as real <= y + 0.5)
      && (y < -0.5 ==> n == 0)
      && n as real <= if y < 0.0 then 0.5 else y + 0.5
  {
    VectorExists(p, pin, target);
  }

  method PredictSingleDay(p: Predictor, pin: string, target: nat) returns (r: Option<nat>)
    requires Valid(p)
    ensures r == Prediction(p, pin, target)
  {
    if pin !in PincodeInfo(p.history) {
      return None;
    }
    var features := BuildFeatures(p, pin, target);
    r := if features.None? then None else Some(Clamp(RoundHalfEven(p.model(features.value))));
  }

  /** One row of the weekly or monthly predictions. */
  datatype DayPrediction = DayPrediction(date: nat, dayName: string, footfall: nat)

  /** The rows one `predict_single_day` result contributes for day `d`: one when it succeeded, none otherwise. */
  function RowFor(d: nat, pred: Option<nat>): seq<DayPrediction> {
    if pred.Some? then [DayPrediction(d, DayName(d), pred.value)] else []
  }

  /** The successful predictions for the `count` days from `start`, in date order. */
  ghost function Predictions(p: Predictor, pin: string, start: nat, count: nat): seq<DayPrediction>
    requires Valid(p)
  {
    Rows(PredictionOf(p, pin), start, count)
  }

  /** A known PIN code gets one row per day, for consecutive days in order; an unknown one gets none. */
  lemma PredictionsCover(p: Predictor, pin: string, start: nat, count: nat)
    requires Valid(p)
    ensures pin !in PincodeInfo(p.history) ==> Predictions(p, pin, start, count) == []
    ensures pin in PincodeInfo(p.history) ==>
      && |Predictions(p, pin, start, count)| == count
      && forall k :: 0 <= k < count ==>
        Predictions(p, pin, start, count)[k] ==
          DayPrediction(start + k, DayName(start + k), Prediction(p, pin, start + k).value)
  {
    var f := PredictionOf(p, pin);
    PredictionOfSpec(p, pin);
    if pin in PincodeInfo(p.history) {
      RowsAll(f, start, count);
    } else {
      RowsNone(f, start, count);
    }
  }

  /** The day function agrees with `Prediction` everywhere, and succeeds exactly for a known PIN code. */
  lemma PredictionOfSpec(p: Predictor, pin: string)
    requires Valid(p)
    ensures forall t :: PredictionOf(p, pin)(t) == Prediction(p, pin, t)
    ensures forall t :: PredictionOf(p, pin)(t).Some? <==> pin in PincodeInfo(p.history)
  {
  }

  /** `Prediction` for one PIN code, as a function of the day. */
  ghost function PredictionOf(p: Predictor, pin: string): nat -> Option<nat> {
    t => if Valid(p) then Prediction(p, pin, t) else None
  }

  /** The rows of the successes of `f` on the `count` days from `start`. */
  function Rows(f: nat -> Option<nat>, start: nat, count: nat): seq<DayPrediction> {
    if count == 0 then [] else Rows(f, start, count - 1) + RowFor(start + count - 1, f(start + count - 1))
  }

  /** One more day appends that day's row, if any. */
  lemma RowsStep(f: nat -> Option<nat>, start: nat, n: nat)
    ensures Rows(f, start, n + 1) == Rows(f, start, n) + RowFor(start + n, f(start + n))
  {
  }

  /** Functions that agree on every day give the same rows. */
  lemma {:induction false} RowsAgree(f: nat -> Option<nat>, g: nat -> Option<nat>, start: nat, count: nat)
    requires forall t :: f(t) == g(t)
    ensures Rows(f, start, count) == Rows(g, start, count)
  {
    if count > 0 {
      RowsAgree(f, g, start, count - 1);
    }
  }

  /** When every day succeeds there is one row per day, for consecutive days in order. */
  lemma {:induction false} RowsAll(f: nat -> Option<nat>, start: nat, count: nat)
    requires forall t :: f(t).Some?
    ensures |Rows(f, start, count)| == count
    ensures forall k :: 0 <= k < count ==> Rows(f, start, count)[k] == DayPrediction(start + k, DayName(start + k), f(start + k).value)
  {
    if count > 0 {
      RowsAll(f, start, count - 1);
    }
  }

  /** When every day fails there are no rows. */
  lemma {:induction false} RowsNone(f: nat -> Option<nat>, start: nat, count: nat)
    requires forall t :: f(t).None?
    ensures Rows(f, start, count) == []
  {
    if count > 0 {
      RowsNone(f, start, count - 1);
    }
  }

  /** `predict_week`: the seven days from the start date. */
  method PredictWeek(p: Predictor, pin: string, start: nat) returns (r: seq<DayPrediction>)
    requires Valid(p)
    ensures r == Predictions(p, pin, start, 7)
  {
    r := PredictDays(p, pin, start, 7);
  }

  /** The loop shared by `predict_week` and `predict_month`: one `predict_single_day` per day from `start`, keeping the successes. */
  method PredictDays(p: Predictor, pin: string, start: nat, count: nat) returns (rows: seq<DayPrediction>)
    requires Valid(p)
    ensures rows == Predictions(p, pin, start, count)
  {
    ghost var f := SameAsPrediction(p, pin);
    rows := [];
    for offset := 0 to count
      invariant rows == Rows(f, start, offset)
    {
      var d := start + offset;
      var pred := PredictOn(p, pin, d, f);
      RowsStep(f, start, offset);
      if pred.Some? {
        rows := rows + [DayPrediction(d, DayName(d), pred.value)];
      }
    }
    PredictionOfSpec(p, pin);
    RowsAgree(f, PredictionOf(p, pin), start, count);
  }

  /**
   * `predict_single_day` for day `d`, stated through a day function `f` that agrees with
   * `Prediction`: the loop above then reasons about `f` only, never about the feature pipeline.
   */
  method PredictOn(p: Predictor, pin: string, d: nat, ghost f: nat -> Option<nat>) returns (pred: Option<nat>)
    requires Valid(p) && forall t {:trigger Prediction(p, pin, t)} :: f(t) == Prediction(p, pin, t)
    ensures pred == f(d)
  {
    pred := PredictSingleDay(p, pin, d);
  }

  /** A function of the day that agrees with `Prediction` for `pin`, known by that property alone. */
  lemma SameAsPrediction(p: Predictor, pin: string) returns (f: nat -> Option<nat>)
    requires Valid(p)
    ensures forall t {:trigger Prediction(p, pin, t)} :: f(t) == Prediction(p, pin, t)
  {
    f := PredictionOf(p, pin);
    PredictionOfSpec(p, pin);
  }

  /**
   * `predict_month`: every day from the 1st to the last of the month; `datetime` rejects a year
   * outside 1..9999 or a month outside 1..12, and December 9999 fails on the next year's 1 January.
   */
  ghost function MonthPredictions(p: Predictor, pin: string, year: int, month: int): (r: Result<seq<DayPrediction>, Error>)
    requires Valid(p)
    ensures r.Err? <==> !(1 <= year <= 9999 && 1 <= month <= 12) || (year == 9999 && month == 12)
  {
    if !(1 <= year <= 9999) then Err(ValueError("year"))
    else if !(1 <= month <= 12) then Err(ValueError("month"))
    else if month == 12 && year == 9999 then Err(ValueError("year"))
    else Ok(Predictions(p, pin, DayNumber(Date(year, month, 1)), DaysInMonth(year, month)))
  }

  /** For a known PIN code the rows are the days 1..last of the month, in order (31 December included). */
  lemma MonthCoversEveryDay(p: Predictor, pin: string, year: int, month: int)
    requires Valid(p) && pin in PincodeInfo(p.history)
    requires 1 <= year <= 9999 && 1 <= month <= 12 && !(year == 9999 && month == 12)
    ensures var r := MonthPredictions(p, pin, year, month).value;
      && |r| == DaysInMonth(year, month)
      && forall k :: 0 <= k < |r| ==> r[k].date == DayNumber(Date(year, month, k + 1))
  {
    var first := DayNumber(Date(year, month, 1));
    PredictionsCover(p, pin, first, DaysInMonth(year, month));
    NextMonthStart(year, month);
  }

  method PredictMonth(p: Predictor, pin: string, year: int, month: int) returns (r: Result<seq<DayPrediction>, Error>)
    requires Valid(p)
    ensures r == MonthPredictions(p, pin, year, month)
  {
    if !(1 <= year <= 9999) {
      return Err(ValueError("year"));
    }
    if !(1 <= month <= 12) {
      return Err(ValueError("month"));
    }
    if month == 12 && year == 9999 {
      return Err(ValueError("year"));
    }
    var start := DayNumber(Date(year, month, 1));
    var rows := PredictDays(p, pin, start, DaysInMonth(year, month));
    r := Ok(rows);
  }

  /** The last day of the month is the day before the next month's first (next year's 1 January after December). */
  lemma MonthEnd(year: int, month: int)
    requires 1 <= year <= 9999 && 1 <= month <= 12 && !(year == 9999 && month == 12)
    ensures var next := if month == 12 then DayNumber(Date(year + 1, 1, 1)) else DayNumber(Date(year, month + 1, 1));
      next - 1 == DayNumber(Date(year, month, 1)) + DaysInMonth(year, month) - 1
  {
    NextMonthStart(year, month);
  }

  // ---------------------------------------------------------------- comparing PIN codes

  datatype Comparison = Comparison(pincode: string, district: string, state: string, centerType: string, footfall: nat)

  /** The results list of `compare_pincodes`, in request order. */
  function Compared(p: Predictor, pins: seq<string>, target: nat): (r: seq<Comparison>)
    requires Valid(p)
  {
    if |pins| == 0 then []
    else
      var rest := Compared(p, pins[..|pins| - 1], target);
      var pin := pins[|pins| - 1];
      var pred := Prediction(p, pin, target);
      if pred.Some? && pin in PincodeInfo(p.history) then
        var info := PincodeInfo(p.history)[pin];
        rest + [Comparison(pin, info.district, info.state, info.centerType, pred.value)]
      else rest
  }

  /** Exactly the known PIN codes of the request are compared, each with its prediction and info. */
  lemma {:induction false} ComparedAreKnown(p: Predictor, pins: seq<string>, target: nat)
    requires Valid(p)
    ensures forall c :: c in Compared(p, pins, target) ==>
      c.pincode in pins && c.pincode in PincodeInfo(p.history) && Prediction(p, c.pincode, target) == Some(c.footfall)
    ensures forall pin :: pin in pins && pin in PincodeInfo(p.history) ==>
      exists c :: c in Compared(p, pins, target) && c.pincode == pin
  {
    ComparedSound(p, pins, target);
    ComparedComplete(p, pins, target);
  }

  lemma {:induction false} ComparedSound(p: Predictor, pins: seq<string>, target: nat)
    requires Valid(p)
    ensures forall c :: c in Compared(p, pins, target) ==>
      c.pincode in pins && c.pincode in PincodeInfo(p.history) && Prediction(p, c.pincode, target) == Some(c.footfall)
  {
    if |pins| > 0 {
      var init := pins[..|pins| - 1];
      ComparedSound(p, init, target);
      assert forall x :: x in init ==> x in pins;
    }
  }

  lemma {:induction false} ComparedComplete(p: Predictor, pins: seq<string>, target: nat)
    requires Valid(p)
    ensures forall pin :: pin in pins && pin in PincodeInfo(p.history) ==>
      exists c :: c in Compared(p, pins, target) && c.pincode == pin
  {
    if |pins| > 0 {
      var init := pins[..|pins| - 1];
      ComparedComplete(p, init, target);
      var pin := pins[|pins| - 1];
      if pin in PincodeInfo(p.history) {
        var info := PincodeInfo(p.history)[pin];
        assert Comparison(pin, info.district, info.state, info.centerType, Prediction(p, pin, target).value) in Compared(p, pins, target);
      }
      assert forall x :: x in pins ==> x in init || x == pin;
    }
  }

  predicate FootfallGe(a: Comparison, b: Comparison) {
    a.footfall >= b.footfall
  }

  lemma FootfallGeTotalPreorder()
    ensures TotalPreorder(FootfallGe)
  {
  }

  /** `compare_pincodes`: the results sorted by predicted footfall, descending; with no result `sort_values` raises KeyError. */
  method ComparePincodes(p: Predictor, pins: seq<string>, target: nat) returns (r: Result<seq<Comparison>, Error>)
    requires Valid(p)
    ensures r.Err? <==> Compared(p, pins, target) == []
    ensures r.Err? ==> r.error == KeyError("predicted_footfall")
    ensures r.Ok? ==> SortedBy(r.value, FootfallGe) && multiset(r.value) == multiset(Compared(p, pins, target))
  {
    var results := [];
    for i := 0 to |pins|
      invariant results == Compared(p, pins[..i], target)
    {
      assert pins[..i + 1][..i] == pins[..i];
      var pin := pins[i];
      var pred := PredictSingleDay(p, pin, target);
      if pred.Some? && pin in PincodeInfo(p.history) {
        var info := PincodeInfo(p.history)[pin];
        results := results + [Comparison(pin, info.district, info.state, info.centerType, pred.value)];
      }
    }
    assert pins[..|pins|] == pins;
    if |results| == 0 {
      return Err(KeyError("predicted_footfall"));
    }
    FootfallGeTotalPreorder();
    SortBySpec(results, FootfallGe);
    r := Ok(SortBy(results, FootfallGe));
  }
}
