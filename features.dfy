/**
 * `engineer_features`: the feature table the model is trained on. The raw table's dates are
 * parsed, its columns repaired, its rows sorted by (pincode, date); then temporal, geographic,
 * lag and interaction features are added row by row and every row with a missing value dropped.
 */
module Features {
  import opened Wrappers
  import opened Seqs
  import opened Calendar
  import opened Text
  import opened IsoDate
  import opened Tables
  import opened Reconcile

  /** One row of the repaired table, reduced to the columns the features are computed from. */
  datatype Observation = Observation(date: nat, pincode: string, footfall: int, district: Cell, state: Cell, centerType: string)

  // ---------------------------------------------------------------- loading

  /** `pd.to_datetime` of one cell: a date stays, ISO text is parsed, anything else fails. */
  function ToDatetime(c: Cell): Option<nat> {
    match c
    case Day(n) => Some(n)
    case Text(s) => if ParseIso(s).Some? then Some(DayNumber(ParseIso(s).value)) else None
    case Num(_) => None
  }

  /** `pd.to_datetime(df['date'])`: every cell parsed, or None when one of them does not parse. */
  function ParseDates(cells: seq<Cell>): (r: Option<seq<Cell>>)
    ensures r.Some? <==> forall i :: 0 <= i < |cells| ==> ToDatetime(cells[i]).Some?
    ensures r.Some? ==> |r.value| == |cells|
    ensures r.Some? ==> forall i :: 0 <= i < |cells| ==> r.value[i] == Day(ToDatetime(cells[i]).value)
  {
    if |cells| == 0 then Some([])
    else
      var last := cells[|cells| - 1];
      match ParseDates(cells[..|cells| - 1])
      case None => None
      case Some(front) => if ToDatetime(last).Some? then Some(front + [Day(ToDatetime(last).value)]) else None
  }

  /**
   * Row `i` of the repaired table. A footfall that is not a number fails the first rolling
   * statistic, which pandas reports as `DataError` ("No numeric types to aggregate").
   */
  function ObservationAt(g: Frame, i: nat): Result<Observation, Error>
    requires WF(g) && AllRequired(g) && i < g.height
  {
    match (g.cells["date"][i], g.cells["pincode"][i], g.cells["footfall"][i], g.cells["center_type"][i])
    case (Day(n), Text(p), Num(x), Text(t)) => Ok(Observation(n, p, x, g.cells["district"][i], g.cells["state"][i], t))
    case _ => Err(DataError("footfall"))
  }

  /** The first `n` rows, or the error of the first row that fails. */
  function Observations(g: Frame, n: nat): (r: Result<seq<Observation>, Error>)
    requires WF(g) && AllRequired(g) && n <= g.height
    ensures r.Ok? <==> forall i :: 0 <= i < n ==> ObservationAt(g, i).Ok?
    ensures r.Ok? ==> |r.value| == n && forall i :: 0 <= i < n ==> r.value[i] == ObservationAt(g, i).value
  {
    if n == 0 then Ok([])
    else
      match Observations(g, n - 1)
      case Err(e) => Err(e)
      case Ok(front) =>
        match ObservationAt(g, n - 1)
        case Err(e) => Err(e)
        case Ok(o) => Ok(front + [o])
  }

  // ---------------------------------------------------------------- sorting

  /** `sort_values(['pincode', 'date'])`: pincode text first, then date. */
  predicate ObsLe(a: Observation, b: Observation) {
    if a.pincode == b.pincode then a.date <= b.date else StrLe(a.pincode, b.pincode)
  }

  /** The (pincode, date) order is total and transitive, so sorting by it is well defined. */
  lemma ObsLeTotalPreorder()
    ensures TotalPreorder(ObsLe)
  {
    forall a: Observation, b: Observation ensures ObsLe(a, b) || ObsLe(b, a) {
      StrLeTotal(a.pincode, b.pincode);
    }
    forall a: Observation, b: Observation, c: Observation | ObsLe(a, b) && ObsLe(b, c) ensures ObsLe(a, c) {
      if a.pincode != b.pincode && b.pincode != c.pincode {
        StrLeTransitive(a.pincode, b.pincode, c.pincode);
        if a.pincode == c.pincode {
          StrLeAntisymmetric(a.pincode, b.pincode);
        }
      }
    }
  }

  function SortedRows(obs: seq<Observation>): (r: seq<Observation>)
    ensures SortedBy(r, ObsLe) && multiset(r) == multiset(obs) && |r| == |obs|
  {
    ObsLeTotalPreorder();
    SortBySpec(obs, ObsLe);
    SortBy(obs, ObsLe)
  }

  // ---------------------------------------------------------------- groups and windows

  /** The rows of PIN code `p`, in table order (`df.groupby('pincode')` for one group). */
  function Group(s: seq<Observation>, p: string): (r: seq<Observation>)
    ensures |r| <= |s|
  {
    if |s| == 0 then []
    else Group(s[..|s| - 1], p) + (if s[|s| - 1].pincode == p then [s[|s| - 1]] else [])
  }

  /** The footfall column of some rows, as floats. */
  function Footfalls(rows: seq<Observation>): (r: seq<real>)
    ensures |r| == |rows|
  {
    if |rows| == 0 then [] else Footfalls(rows[..|rows| - 1]) + [rows[|rows| - 1].footfall as real]
  }

  lemma {:induction false} FootfallsAt(rows: seq<Observation>)
    ensures forall k :: 0 <= k < |rows| ==> Footfalls(rows)[k] == rows[k].footfall as real
  {
    if |rows| > 0 {
      FootfallsAt(rows[..|rows| - 1]);
    }
  }

  /** The footfalls of the earlier rows of row `i`'s PIN code: everything a feature of row `i` may look at. */
  function History(s: seq<Observation>, i: nat): seq<real>
    requires i < |s|
  {
    Footfalls(Group(s[..i], s[i].pincode))
  }

  /** The last `w` values of row `i`'s history: the window its rolling features should see. */
  function Window(s: seq<Observation>, i: nat, w: nat): seq<real>
    requires i < |s|
  {
    Tail(History(s, i), w)
  }

  /** `groupby('pincode')['footfall'].shift(k)` for a row whose group history is `h`. */
  function Lag(h: seq<real>, k: nat): Value
    requires k >= 1
  {
    if |h| >= k then Number(h[|h| - k]) else NaN
  }

  /** The window statistics the table uses. */
  datatype Statistic = RollMean | RollStd | RollMax | RollMin

  /** A statistic of a window (`min_periods=1`; the standard deviation needs two values). */
  function Summary(st: Statistic, win: seq<real>): Value {
    if |win| == 0 then NaN
    else
      match st
      case RollMean => Number(Mean(win))
      case RollStd => if |win| >= 2 then Sqrt(SampleVariance(win).value) else NaN
      case RollMax => Number(MaxOf(win))
      case RollMin => Number(MinOf(win))
  }

  /**
   * `groupby('pincode')['footfall'].transform(lambda x: x.rolling(w, min_periods=1).stat()).shift(1)`:
   * the transform is computed per group, but the shift moves the whole column down one row, so
   * row `i` receives the statistic of row `i - 1` over the last `w` rows of row `i - 1`'s group.
   */
  function Rolling(s: seq<Observation>, i: nat, w: nat, st: Statistic): Value
    requires i < |s|
  {
    if i == 0 then NaN else Summary(st, Tail(Footfalls(Group(s[..i], s[i - 1].pincode)), w))
  }

  datatype LagFeatures = LagFeatures(
    lag7: Value, lag14: Value, lag30: Value,
    mean7: Value, mean14: Value, mean30: Value,
    std7: Value, max30: Value, min30: Value)

  /** `_add_lag_features` for row `i` (the two change columns are in `RowOf`). */
  function LagsOf(s: seq<Observation>, i: nat): LagFeatures
    requires i < |s|
  {
    var h := History(s, i);
    LagFeatures(
      Lag(h, 7), Lag(h, 14), Lag(h, 30),
      Rolling(s, i, 7, RollMean), Rolling(s, i, 14, RollMean), Rolling(s, i, 30, RollMean),
      Rolling(s, i, 7, RollStd), Rolling(s, i, 30, RollMax), Rolling(s, i, 30, RollMin))
  }

  /** `footfall - lag`: missing where the lag is. */
  function Change(x: int, lag: Value): Value {
    if lag.Number? then Number(x as real - lag.x) else NaN
  }

  /** `a / (b + 1)` on float columns: NaN in, NaN out; a zero divisor gives an infinity, or NaN for 0 / 0. */
  function Ratio(a: Value, b: Value): Value {
    if !a.Number? || !b.Number? then NaN
    else if b.x + 1.0 != 0.0 then Number(a.x / (b.x + 1.0))
    else if a.x == 0.0 then NaN
    else Infinity(a.x < 0.0)
  }

  // ---------------------------------------------------------------- temporal features

  datatype Temporal = Temporal(
    dayOfWeek: int, dayName: string, isWeekend: int, isMonday: int, month: int, quarter: int,
    weekOfMonth: int, dayOfMonth: int, isFirstWeek: int, isHoliday: int, isDayAfterHoliday: int,
    isEnrollmentSeason: int, isPensionMonth: int, isFestivalSeason: int, dayOfYear: int)

  /** `astype(int)` of a boolean. */
  function Flag(b: bool): int {
    if b then 1 else 0
  }

  /** `strftime('%Y-%m-%d')` of a day number. */
  function IsoOf(n: nat): string {
    CivilFromDaysValid(n);
    FormatIso(CivilFromDays(n))
  }

  predicate IsHolidayOn(n: nat, holidays: seq<string>) {
    IsoOf(n) in holidays
  }

  /** `_add_temporal_features` for a date, given its two holiday flags. */
  function TemporalOf(n: nat, holiday: bool, dayAfter: bool): Temporal {
    var d := CivilFromDays(n);
    var dow := DayOfWeek(n);
    var week := (d.day - 1) / 7 + 1;
    Temporal(
      dow, DayName(n), Flag(dow >= 5), Flag(dow == 0), d.month, (d.month - 1) / 3 + 1,
      week, d.day, Flag(week == 1), Flag(holiday), Flag(dayAfter),
      Flag(d.month == 6 || d.month == 7), Flag(d.month == 11), Flag(d.month == 10), DayOfYear(n))
  }

  /** `groupby('pincode')['is_holiday'].shift(1).fillna(0)`: the holiday flag of the group's previous row. */
  predicate AfterHoliday(s: seq<Observation>, i: nat, holidays: seq<string>)
    requires i < |s|
  {
    var prev := Group(s[..i], s[i].pincode);
    |prev| > 0 && IsHolidayOn(prev[|prev| - 1].date, holidays)
  }

  // ---------------------------------------------------------------- geographic features

  /** `map({'Rural': 0, 'Semi-Urban': 1, 'Urban': 2})`: NaN for any other text. */
  function TypeCode(t: string): Value {
    if t == "Rural" then Number(0.0)
    else if t == "Semi-Urban" then Number(1.0)
    else if t == "Urban" then Number(2.0)
    else NaN
  }

  function States(s: seq<Observation>): (r: seq<Cell>)
    ensures |r| == |s| && forall i :: 0 <= i < |s| ==> r[i] == s[i].state
  {
    if |s| == 0 then [] else States(s[..|s| - 1]) + [s[|s| - 1].state]
  }

  function Districts(s: seq<Observation>): (r: seq<Cell>)
    ensures |r| == |s| && forall i :: 0 <= i < |s| ==> r[i] == s[i].district
  {
    if |s| == 0 then [] else Districts(s[..|s| - 1]) + [s[|s| - 1].district]
  }

  datatype Geographic = Geographic(
    centerTypeEncoded: Value, isUrban: int, isRural: int,
    stateEncoded: int, districtEncoded: int, pincodeCategory: string)

  /** `_add_geographic_features` for row `i`; the codes are `pd.factorize` over the whole sorted column. */
  function GeoOf(s: seq<Observation>, i: nat): Geographic
    requires i < |s|
  {
    var t := s[i].centerType;
    assert States(s)[i] == s[i].state && Districts(s)[i] == s[i].district;
    Geographic(
      TypeCode(t), Flag(t == "Urban"), Flag(t == "Rural"),
      Code(States(s), s[i].state), Code(Districts(s), s[i].district), s[i].pincode)
  }

  // ---------------------------------------------------------------- interactions and rows

  datatype Interactions = Interactions(
    ruralPension: int, urbanEnrollment: int, mondayFirstWeek: int, weekendHoliday: int, lagRatio: Value)

  /** `_add_interaction_features`. */
  function InteractionsOf(t: Temporal, g: Geographic, l: LagFeatures): Interactions {
    Interactions(
      g.isRural * t.isPensionMonth, g.isUrban * t.isEnrollmentSeason,
      t.isMonday * t.isFirstWeek, t.isWeekend * t.isHoliday, Ratio(l.lag7, l.mean30))
  }

  datatype FeatureRow = FeatureRow(
    obs: Observation, temporal: Temporal, geo: Geographic, lags: LagFeatures,
    change7d: Value, change30d: Value, inter: Interactions)

  /** Every feature of row `i` of the sorted table. */
  function RowOf(s: seq<Observation>, i: nat, holidays: seq<string>): FeatureRow
    requires i < |s|
  {
    var t := TemporalOf(s[i].date, IsHolidayOn(s[i].date, holidays), AfterHoliday(s, i, holidays));
    var g := GeoOf(s, i);
    var l := LagsOf(s, i);
    FeatureRow(s[i], t, g, l, Change(s[i].footfall, l.lag7), Change(s[i].footfall, l.lag30), InteractionsOf(t, g, l))
  }

  /** `dropna()`: a row survives when none of its values is missing. */
  predicate HasNoNaN(r: FeatureRow) {
    && r.geo.centerTypeEncoded != NaN
    && r.lags.lag7 != NaN && r.lags.lag14 != NaN && r.lags.lag30 != NaN
    && r.lags.mean7 != NaN && r.lags.mean14 != NaN && r.lags.mean30 != NaN
    && r.lags.std7 != NaN && r.lags.max30 != NaN && r.lags.min30 != NaN
    && r.change7d != NaN && r.change30d != NaN && r.inter.lagRatio != NaN
  }

  /** The feature rows of the sorted table, one per row. */
  function FeatureRows(s: seq<Observation>, holidays: seq<string>): (r: seq<FeatureRow>)
    ensures |r| == |s|
  {
    seq(|s|, k requires 0 <= k < |s| => RowOf(s, k, holidays))
  }

  /** The columns the four feature steps add, in the order they add them. */
  const Engineered: seq<string> := [
    "day_of_week", "day_name", "is_weekend", "is_monday", "month", "quarter", "week_of_month",
    "day_of_month", "is_first_week", "is_holiday", "is_day_after_holiday", "is_enrollment_season",
    "is_pension_month", "is_festival_season", "day_of_year",
    "center_type_encoded", "is_urban", "is_rural", "state_encoded", "district_encoded", "pincode_category",
    "footfall_lag_7", "footfall_lag_14", "footfall_lag_30", "footfall_rolling_mean_7",
    "footfall_rolling_mean_14", "footfall_rolling_mean_30", "footfall_rolling_std_7",
    "footfall_change_7d", "footfall_change_30d", "footfall_rolling_max_30", "footfall_rolling_min_30",
    "rural_pension_interaction", "urban_enrollment_interaction", "monday_first_week", "weekend_holiday",
    "lag_ratio_7_to_30"
  ]

  /** The column order after `df[c] = ...` for each name: an existing column keeps its place, a new one is appended. */
  function WithColumns(cols: seq<string>, names: seq<string>): (r: seq<string>)
    ensures cols <= r
    ensures forall c :: c in r <==> c in cols || c in names
    decreases |names|
  {
    if |names| == 0 then cols
    else WithColumns(if names[0] in cols then cols else cols + [names[0]], names[1..])
  }

  /** The saved feature table: the repaired table's column order (the engineered names follow, see `Columns`) and its rows. */
  datatype FeatureTable = FeatureTable(repaired: seq<string>, rows: seq<FeatureRow>)

  function Columns(t: FeatureTable): seq<string> {
    WithColumns(t.repaired, Engineered)
  }

  /** The feature table of a repaired table: its rows sorted, featured, and those with a missing value dropped. */
  function FeaturesOf(g: Frame, holidays: seq<string>): (r: Result<FeatureTable, Error>)
    requires WF(g) && AllRequired(g)
    ensures r.Err? <==> exists i :: 0 <= i < g.height && ObservationAt(g, i).Err?
    ensures r.Err? ==> r.error == DataError("footfall")
    ensures r.Ok? ==> r.value.repaired == g.columns
    ensures r.Ok? ==> forall k :: 0 <= k < |r.value.rows| ==> HasNoNaN(r.value.rows[k])
  {
    match Observations(g, g.height)
    case Err(_) => Err(DataError("footfall"))
    case Ok(obs) =>
      var s := SortedRows(obs);
      FilterMembers(FeatureRows(s, holidays), HasNoNaN);
      Ok(FeatureTable(g.columns, Filter(FeatureRows(s, holidays), HasNoNaN)))
  }

  /**
   * A repaired one-row table whose footfall is the text `abc`, with its centre type given: the
   * repair leaves the footfall alone, and the rolling mean fails with `DataError`, not `TypeError`.
   */
  lemma TextFootfallIsDataError(holidays: seq<string>)
    ensures var g := Frame(Required, map[
        "date" := [Day(738885)], "pincode" := [Text("110001")], "footfall" := [Text("abc")],
        "district" := [Text("New Delhi")], "state" := [Text("Delhi")], "center_type" := [Text("Urban")]], 1);
      FeaturesOf(g, holidays) == Err(DataError("footfall"))
  {
    var g := Frame(Required, map[
        "date" := [Day(738885)], "pincode" := [Text("110001")], "footfall" := [Text("abc")],
        "district" := [Text("New Delhi")], "state" := [Text("Delhi")], "center_type" := [Text("Urban")]], 1);
    assert ObservationAt(g, 0).Err?;
  }

  /** `engineer_features` from the CSV table to the saved feature table. */
  function EngineerFeatures(raw: Frame, holidays: seq<string>): (r: Result<FeatureTable, Error>)
    requires WF(raw)
    ensures r == Err(KeyError("date")) <==> "date" !in raw.cells
    ensures r.Ok? ==> forall k :: 0 <= k < |r.value.rows| ==> HasNoNaN(r.value.rows[k])
  {
    if "date" !in raw.cells then Err(KeyError("date"))
    else
      match ParseDates(raw.cells["date"])
      case None => Err(ValueError("date"))
      case Some(days) =>
        var parsed := SetColumn(raw, "date", days);
        match Repair(parsed)
        case Err(e) => Err(e)
        case Ok(rec) =>
          ReconciledShape(parsed);
          FeaturesOf(rec.frame, holidays)
  }

  /**
   * End to end: when the dates parse, the repair succeeds and every footfall of the repaired table
   * is a count, `engineer_features` keeps exactly the sorted rows with at least 30 earlier rows of
   * their PIN code, each with its feature row.
   */
  lemma EngineerFeaturesRows(raw: Frame, holidays: seq<string>, g: Frame)
    requires WF(raw) && "date" in raw.cells && ParseDates(raw.cells["date"]).Some?
    requires var parsed := SetColumn(raw, "date", ParseDates(raw.cells["date"]).value);
      Repair(parsed).Ok? && g == Repair(parsed).value.frame
    requires WF(g) && AllRequired(g) && Observations(g, g.height).Ok?
    requires forall k :: 0 <= k < g.height ==> ObservationAt(g, k).value.footfall >= 0
    ensures var s := SortedRows(Observations(g, g.height).value);
      EngineerFeatures(raw, holidays) == Ok(FeatureTable(g.columns, Kept(s, holidays)))
  {
    var parsed := SetColumn(raw, "date", ParseDates(raw.cells["date"]).value);
    RepairedTypesCanonical(parsed, g);
    FeaturesOfRows(g, holidays);
  }

  lemma RepairedTypesCanonical(parsed: Frame, g: Frame)
    requires WF(parsed) && Repair(parsed).Ok? && g == Repair(parsed).value.frame
    requires Observations(g, g.height).Ok?
    ensures forall k :: 0 <= k < g.height ==> Canonical(ObservationAt(g, k).value.centerType)
  {
    ReconciledShape(parsed);
    forall k | 0 <= k < g.height
      ensures Canonical(ObservationAt(g, k).value.centerType)
    {
      assert ValidType(Column(g, "center_type")[k]);
    }
  }

  // ---------------------------------------------------------------- columns

  /** The repaired columns keep their order at the front; the engineered ones are all there, and nothing else. */
  lemma ColumnsOfTable(t: FeatureTable)
    ensures t.repaired <= Columns(t)
    ensures forall c :: c in Columns(t) <==> c in t.repaired || c in Engineered
  {
  }

  // ---------------------------------------------------------------- groups in the sorted table

  /** The first row of row `i`'s run of rows with the same PIN code. */
  function GroupStart(s: seq<Observation>, i: nat): (r: nat)
    requires i < |s|
    ensures r <= i && (r == 0 || s[r - 1].pincode != s[i].pincode)
    ensures forall k :: r <= k <= i ==> s[k].pincode == s[i].pincode
  {
    if i == 0 || s[i - 1].pincode != s[i].pincode then i else GroupStart(s, i - 1)
  }

  /** In the sorted table the rows of one PIN code are adjacent. */
  lemma SameGroupBetween(s: seq<Observation>, j: nat, k: nat, i: nat)
    requires SortedBy(s, ObsLe) && j <= k <= i < |s| && s[j].pincode == s[i].pincode
    ensures s[k].pincode == s[i].pincode
  {
    if j < k < i {
      assert ObsLe(s[j], s[k]) && ObsLe(s[k], s[i]);
      if s[k].pincode != s[i].pincode {
        StrLeAntisymmetric(s[k].pincode, s[i].pincode);
      }
    }
  }

  lemma {:induction false} GroupEmpty(t: seq<Observation>, p: string)
    requires forall k :: 0 <= k < |t| ==> t[k].pincode != p
    ensures Group(t, p) == []
  {
    if |t| > 0 {
      GroupEmpty(t[..|t| - 1], p);
    }
  }

  /** Row `i`'s earlier rows of its PIN code are the rows just before it, from its group start on. */
  predicate AfterItsGroup(s: seq<Observation>, i: nat)
    requires i < |s|
  {
    Group(s[..i], s[i].pincode) == s[GroupStart(s, i)..i]
  }

  /** In the sorted table, every row comes right after the earlier rows of its PIN code. */
  lemma {:induction false} GroupIsRun(s: seq<Observation>, i: nat)
    requires SortedBy(s, ObsLe) && i < |s|
    ensures AfterItsGroup(s, i)
  {
    if i > 0 && s[i - 1].pincode != s[i].pincode {
      GroupStartsAt(s, i);
    } else if i > 0 {
      GroupIsRun(s, i - 1);
      GroupContinues(s, i);
    }
  }

  /** A row whose predecessor has another PIN code has no earlier rows of its own. */
  lemma GroupStartsAt(s: seq<Observation>, i: nat)
    requires SortedBy(s, ObsLe) && 0 < i < |s| && s[i - 1].pincode != s[i].pincode
    ensures AfterItsGroup(s, i)
  {
    var p := s[i].pincode;
    forall k | 0 <= k < i ensures s[..i][k].pincode != p {
      if s[k].pincode == p {
        SameGroupBetween(s, k, i - 1, i);
      }
    }
    GroupEmpty(s[..i], p);
  }

  /** A row whose predecessor has the same PIN code extends that predecessor's run. */
  lemma GroupContinues(s: seq<Observation>, i: nat)
    requires 0 < i < |s| && s[i - 1].pincode == s[i].pincode && AfterItsGroup(s, i - 1)
    ensures AfterItsGroup(s, i)
  {
    var g := GroupStart(s, i - 1);
    assert s[..i][..i - 1] == s[..i - 1];
    GroupAppend(s[..i], s[i].pincode);
    assert s[g..i] == s[g..i - 1] + [s[i - 1]];
  }

  /** A last row of PIN code `p` extends the group of the rows before it. */
  lemma GroupAppend(t: seq<Observation>, p: string)
    requires |t| > 0 && t[|t| - 1].pincode == p
    ensures Group(t, p) == Group(t[..|t| - 1], p) + [t[|t| - 1]]
  {
  }

  /** The history of row `i` is the footfalls of the rows between its group start and `i`: its position in the group is its length. */
  lemma HistoryIsRun(s: seq<Observation>, i: nat)
    requires i < |s| && AfterItsGroup(s, i)
    ensures |History(s, i)| == i - GroupStart(s, i)
    ensures forall k :: 0 <= k < |History(s, i)| ==> History(s, i)[k] == s[GroupStart(s, i) + k].footfall as real
  {
    FootfallsAt(s[GroupStart(s, i)..i]);
  }

  // ---------------------------------------------------------------- lag features

  /** `shift(k)` within the group: the footfall `k` rows earlier when that row has the same PIN code, else missing. */
  lemma LagIsEarlierRow(s: seq<Observation>, i: nat, k: nat)
    requires SortedBy(s, ObsLe) && i < |s| && k >= 1
    ensures Lag(History(s, i), k) == if GroupStart(s, i) + k <= i then Number(s[i - k].footfall as real) else NaN
  {
    GroupIsRun(s, i);
    HistoryIsRun(s, i);
    LagOfRun(s, History(s, i), GroupStart(s, i), i, k);
  }

  /** `Lag` of a history that holds the footfalls of rows `g..i`. */
  lemma LagOfRun(s: seq<Observation>, h: seq<real>, g: nat, i: nat, k: nat)
    requires g <= i <= |s| && k >= 1 && |h| == i - g
    requires forall j :: 0 <= j < |h| ==> h[j] == s[g + j].footfall as real
    ensures Lag(h, k) == if g + k <= i then Number(s[i - k].footfall as real) else NaN
  {
    if g + k <= i {
      assert h[|h| - k] == s[g + (|h| - k)].footfall as real;
    }
  }

  /**
   * No leakage: once row `i` has an earlier row of its own PIN code, each rolling feature is the
   * statistic of the last `w` values of its history, which holds only earlier rows of that PIN code.
   */
  lemma RollingUsesHistory(s: seq<Observation>, i: nat, w: nat, st: Statistic)
    requires i < |s| && GroupStart(s, i) < i
    ensures Rolling(s, i, w, st) == Summary(st, Window(s, i, w))
  {
  }

  /** The window of a rolling feature: the footfalls of the `min(w, n)` rows just before row `i`, all of its PIN code. */
  lemma WindowRows(s: seq<Observation>, i: nat, w: nat)
    requires SortedBy(s, ObsLe) && i < |s|
    ensures |Window(s, i, w)| == if w < i - GroupStart(s, i) then w else i - GroupStart(s, i)
    ensures forall k :: 0 <= k < |Window(s, i, w)| ==>
      var j := i - |Window(s, i, w)| + k;
      Window(s, i, w)[k] == s[j].footfall as real && s[j].pincode == s[i].pincode
  {
    GroupIsRun(s, i);
    WindowOfRun(s, i, w);
  }

  lemma WindowOfRun(s: seq<Observation>, i: nat, w: nat)
    requires i < |s| && AfterItsGroup(s, i)
    ensures |Window(s, i, w)| == if w < i - GroupStart(s, i) then w else i - GroupStart(s, i)
    ensures forall k :: 0 <= k < |Window(s, i, w)| ==>
      var j := i - |Window(s, i, w)| + k;
      Window(s, i, w)[k] == s[j].footfall as real && s[j].pincode == s[i].pincode
  {
    HistoryIsRun(s, i);
    TailOfRun(s, History(s, i), GroupStart(s, i), i, w);
  }

  /** The last `w` entries of the footfalls of `s[g..i]` are the footfalls just before `i`. */
  lemma TailOfRun(s: seq<Observation>, h: seq<real>, g: nat, i: nat, w: nat)
    requires g <= i <= |s| && |h| == i - g
    requires forall k :: 0 <= k < |h| ==> h[k] == s[g + k].footfall as real
    ensures forall k :: 0 <= k < |Tail(h, w)| ==> Tail(h, w)[k] == s[i - |Tail(h, w)| + k].footfall as real
  {
    var win := Tail(h, w);
    forall k | 0 <= k < |win| ensures win[k] == s[i - |win| + k].footfall as real {
      var j := |h| - |win| + k;
      assert win[k] == h[j] == s[g + j].footfall as real;
      assert g + j == i - |win| + k;
    }
  }

  /**
   * Before `dropna`, the first row of a PIN code receives the statistics of the previous PIN
   * code's last row (the shift is frame-wide); it is always dropped, since its lags are missing.
   */
  lemma FirstRowOfGroup(s: seq<Observation>, i: nat, holidays: seq<string>)
    requires SortedBy(s, ObsLe) && 0 < i < |s| && s[i - 1].pincode != s[i].pincode
    ensures History(s, i) == []
    ensures LagsOf(s, i).mean7 == Summary(RollMean, Tail(Footfalls(Group(s[..i], s[i - 1].pincode)), 7))
    ensures LagsOf(s, i).mean7 != NaN
    ensures !HasNoNaN(RowOf(s, i, holidays))
  {
    GroupIsRun(s, i);
    HistoryIsRun(s, i);
    assert s[..i][i - 1] == s[i - 1];
    GroupIsRun(s, i - 1);
  }

  lemma {:induction false} SumNonNegative(xs: seq<real>)
    requires forall k :: 0 <= k < |xs| ==> xs[k] >= 0.0
    ensures Sum(xs) >= 0.0
  {
    if |xs| > 0 {
      SumNonNegative(xs[..|xs| - 1]);
    }
  }

  /** With two or more earlier rows of its PIN code, no rolling feature of a row is missing. */
  lemma RollingPresent(s: seq<Observation>, i: nat, w: nat, st: Statistic)
    requires i < |s| && AfterItsGroup(s, i) && GroupStart(s, i) + 2 <= i && w >= 2
    ensures Rolling(s, i, w, st) != NaN
  {
    HistoryIsRun(s, i);
    RollingUsesHistory(s, i, w, st);
  }

  /** Counts are never negative, so neither is the 30-day mean. */
  lemma MeanThirtyNonNegative(s: seq<Observation>, i: nat)
    requires i < |s| && AfterItsGroup(s, i) && GroupStart(s, i) < i
    requires forall k :: 0 <= k < |s| ==> s[k].footfall >= 0
    ensures Rolling(s, i, 30, RollMean).Number? && Rolling(s, i, 30, RollMean).x >= 0.0
  {
    WindowNonNegative(s, i, 30);
    RollingUsesHistory(s, i, 30, RollMean);
    MeanNonNegative(Window(s, i, 30));
  }

  /** A window over counts holds no negative value, and is not empty once the row has an earlier row of its PIN code. */
  lemma WindowNonNegative(s: seq<Observation>, i: nat, w: nat)
    requires i < |s| && AfterItsGroup(s, i) && GroupStart(s, i) < i && w > 0
    requires forall k :: 0 <= k < |s| ==> s[k].footfall >= 0
    ensures |Window(s, i, w)| > 0
    ensures forall k :: 0 <= k < |Window(s, i, w)| ==> Window(s, i, w)[k] >= 0.0
  {
    WindowOfRun(s, i, w);
  }

  lemma MeanNonNegative(win: seq<real>)
    requires |win| > 0 && forall k :: 0 <= k < |win| ==> win[k] >= 0.0
    ensures Summary(RollMean, win).Number? && Summary(RollMean, win).x >= 0.0
  {
    SumNonNegative(win);
    QuotientNonNegative(Sum(win), |win| as real);
  }

  lemma QuotientNonNegative(a: real, b: real)
    requires a >= 0.0 && b > 0.0
    ensures a / b >= 0.0
  {
    assert (a / b) * b == a;
  }

  /** At least 30 earlier rows of its PIN code: none of a row's lag features is missing. */
  lemma LagsPresent(s: seq<Observation>, i: nat)
    requires i < |s| && AfterItsGroup(s, i) && GroupStart(s, i) + 30 <= i
    requires forall k :: 0 <= k < |s| ==> s[k].footfall >= 0
    ensures var l := LagsOf(s, i);
      && l.lag7.Number? && l.lag14.Number? && l.lag30.Number?
      && l.mean7 != NaN && l.mean14 != NaN && l.mean30 != NaN
      && l.std7 != NaN && l.max30 != NaN && l.min30 != NaN
      && Ratio(l.lag7, l.mean30) != NaN
  {
    HistoryIsRun(s, i);
    RollingPresent(s, i, 7, RollMean);
    RollingPresent(s, i, 14, RollMean);
    RollingPresent(s, i, 30, RollMean);
    RollingPresent(s, i, 7, RollStd);
    RollingPresent(s, i, 30, RollMax);
    RollingPresent(s, i, 30, RollMin);
    MeanThirtyNonNegative(s, i);
  }

  /**
   * `dropna` keeps exactly the rows with at least 30 earlier rows of their PIN code (footfalls
   * being counts and center types canonical): with gap-free data, every PIN code loses its first 30 days.
   */
  lemma DropnaKeepsFromThirtieth(s: seq<Observation>, i: nat, holidays: seq<string>)
    requires SortedBy(s, ObsLe) && i < |s|
    requires Canonical(s[i].centerType)
    requires forall k :: 0 <= k < |s| ==> s[k].footfall >= 0
    ensures HasNoNaN(RowOf(s, i, holidays)) <==> i - GroupStart(s, i) >= 30
  {
    GroupIsRun(s, i);
    KeptFromThirtieth(s, i, holidays);
  }

  lemma KeptFromThirtieth(s: seq<Observation>, i: nat, holidays: seq<string>)
    requires i < |s| && AfterItsGroup(s, i)
    requires Canonical(s[i].centerType)
    requires forall k :: 0 <= k < |s| ==> s[k].footfall >= 0
    ensures HasNoNaN(RowOf(s, i, holidays)) <==> i - GroupStart(s, i) >= 30
  {
    HistoryIsRun(s, i);
    if i - GroupStart(s, i) >= 30 {
      LagsPresent(s, i);
      RowPresent(s, i, holidays);
    } else {
      assert LagsOf(s, i).lag30 == NaN;
    }
  }

  /** For each sorted row, whether it has at least 30 earlier rows of its PIN code. */
  function FromThirtieth(s: seq<Observation>): (r: seq<bool>)
    ensures |r| == |s|
  {
    seq(|s|, i requires 0 <= i < |s| => i - GroupStart(s, i) >= 30)
  }

  /**
   * The reference for what `dropna` keeps of the sorted table: in table order, the feature row
   * of each row that has at least 30 earlier rows of its PIN code.
   */
  function Kept(s: seq<Observation>, holidays: seq<string>): seq<FeatureRow> {
    Select(FeatureRows(s, holidays), FromThirtieth(s), |s|)
  }

  /** Dropping the feature rows with a missing value keeps exactly `Kept`. */
  lemma DropnaRows(s: seq<Observation>, holidays: seq<string>)
    requires SortedBy(s, ObsLe)
    requires forall k :: 0 <= k < |s| ==> s[k].footfall >= 0 && Canonical(s[k].centerType)
    ensures Filter(FeatureRows(s, holidays), HasNoNaN) == Kept(s, holidays)
  {
    var rows := FeatureRows(s, holidays);
    DropnaCondition(s, holidays);
    FilterIsSelect(rows, HasNoNaN, FromThirtieth(s), |s|);
    assert rows[..|s|] == rows;
  }

  /** In a sorted table of counts with canonical types, a row has no missing value exactly from its group's 31st row on. */
  lemma DropnaCondition(s: seq<Observation>, holidays: seq<string>)
    requires SortedBy(s, ObsLe)
    requires forall k :: 0 <= k < |s| ==> s[k].footfall >= 0 && Canonical(s[k].centerType)
    ensures forall i :: 0 <= i < |s| ==> (HasNoNaN(FeatureRows(s, holidays)[i]) <==> FromThirtieth(s)[i])
  {
    forall i | 0 <= i < |s|
      ensures HasNoNaN(FeatureRows(s, holidays)[i]) <==> FromThirtieth(s)[i]
    {
      DropnaKeepsFromThirtieth(s, i, holidays);
    }
  }

  /**
   * The rows of the feature table: with counts for footfalls and canonical centre types (as the
   * repair leaves them), they are the feature rows of the (pincode, date)-sorted observations
   * that have at least 30 earlier rows of their PIN code, in sorted order.
   */
  lemma FeaturesOfRows(g: Frame, holidays: seq<string>)
    requires WF(g) && AllRequired(g) && Observations(g, g.height).Ok?
    requires forall k :: 0 <= k < g.height ==>
      ObservationAt(g, k).value.footfall >= 0 && Canonical(ObservationAt(g, k).value.centerType)
    ensures var s := SortedRows(Observations(g, g.height).value);
      FeaturesOf(g, holidays) == Ok(FeatureTable(g.columns, Kept(s, holidays)))
  {
    var obs := Observations(g, g.height).value;
    SortedRowsKeepCounts(obs);
    var s := SortedRows(obs);
    DropnaRows(s, holidays);
  }

  /** Sorting keeps every row's footfall a count and its center type canonical. */
  lemma SortedRowsKeepCounts(obs: seq<Observation>)
    requires forall j :: 0 <= j < |obs| ==> obs[j].footfall >= 0 && Canonical(obs[j].centerType)
    ensures var s := SortedRows(obs);
      forall k :: 0 <= k < |s| ==> s[k].footfall >= 0 && Canonical(s[k].centerType)
  {
    var s := SortedRows(obs);
    forall k | 0 <= k < |s|
      ensures s[k].footfall >= 0 && Canonical(s[k].centerType)
    {
      assert s[k] in multiset(obs);
      var j :| 0 <= j < |obs| && obs[j] == s[k];
    }
  }

  /** A row whose lag features are all present and whose center type is canonical has no missing value. */
  lemma RowPresent(s: seq<Observation>, i: nat, holidays: seq<string>)
    requires i < |s| && Canonical(s[i].centerType)
    requires var l := LagsOf(s, i);
      && l.lag7.Number? && l.lag14.Number? && l.lag30.Number?
      && l.mean7 != NaN && l.mean14 != NaN && l.mean30 != NaN
      && l.std7 != NaN && l.max30 != NaN && l.min30 != NaN
      && Ratio(l.lag7, l.mean30) != NaN
    ensures HasNoNaN(RowOf(s, i, holidays))
  {
  }

  /** A constant window has its value as mean, maximum and minimum, and a zero deviation. */
  lemma ConstantRolling(s: seq<Observation>, i: nat, w: nat, c: nat)
    requires i < |s| && AfterItsGroup(s, i) && GroupStart(s, i) + w <= i && w >= 2
    requires forall k :: GroupStart(s, i) <= k < i ==> s[k].footfall == c
    ensures Rolling(s, i, w, RollMean) == Number(c as real)
    ensures Rolling(s, i, w, RollMax) == Number(c as real)
    ensures Rolling(s, i, w, RollMin) == Number(c as real)
    ensures Rolling(s, i, w, RollStd) == Sqrt(0.0)
  {
    WindowOfRun(s, i, w);
    RollingUsesHistory(s, i, w, RollMean);
    RollingUsesHistory(s, i, w, RollMax);
    RollingUsesHistory(s, i, w, RollMin);
    RollingUsesHistory(s, i, w, RollStd);
    var win := Window(s, i, w);
    forall k | 0 <= k < |win| ensures win[k] == c as real {
      assert win[k] == s[i - |win| + k].footfall as real;
    }
    ConstantSummaries(win, c as real);
  }

  /** The statistics of a window of at least two equal values. */
  lemma ConstantSummaries(win: seq<real>, c: real)
    requires |win| >= 2 && forall k :: 0 <= k < |win| ==> win[k] == c
    ensures Summary(RollMean, win) == Number(c) && Summary(RollMax, win) == Number(c) && Summary(RollMin, win) == Number(c)
    ensures Summary(RollStd, win) == Sqrt(0.0)
  {
    ConstantAggregates(win, c);
    ConstantVariance(win, c);
  }

  /** A PIN code with a constant footfall `c` over 30 earlier days: every lag and statistic is `c`, the deviation 0. */
  lemma ConstantHistory(s: seq<Observation>, i: nat, c: nat)
    requires SortedBy(s, ObsLe) && i < |s| && GroupStart(s, i) + 30 <= i
    requires forall k :: GroupStart(s, i) <= k < i ==> s[k].footfall == c
    ensures LagsOf(s, i) == LagFeatures(
      Number(c as real), Number(c as real), Number(c as real),
      Number(c as real), Number(c as real), Number(c as real),
      Sqrt(0.0), Number(c as real), Number(c as real))
  {
    GroupIsRun(s, i);
    ConstantLags(s, i, c);
  }

  lemma ConstantLags(s: seq<Observation>, i: nat, c: nat)
    requires i < |s| && AfterItsGroup(s, i) && GroupStart(s, i) + 30 <= i
    requires forall k :: GroupStart(s, i) <= k < i ==> s[k].footfall == c
    ensures LagsOf(s, i) == LagFeatures(
      Number(c as real), Number(c as real), Number(c as real),
      Number(c as real), Number(c as real), Number(c as real),
      Sqrt(0.0), Number(c as real), Number(c as real))
  {
    HistoryIsRun(s, i);
    var h := History(s, i);
    assert h[|h| - 7] == c as real && h[|h| - 14] == c as real && h[|h| - 30] == c as real;
    ConstantRolling(s, i, 7, c);
    ConstantRolling(s, i, 14, c);
    ConstantRolling(s, i, 30, c);
  }

  /** With that constant history, the lag ratio `lag_7 / (mean_30 + 1)` is `c / (c + 1)`. */
  lemma ConstantRatio(s: seq<Observation>, i: nat, c: nat)
    requires SortedBy(s, ObsLe) && i < |s| && GroupStart(s, i) + 30 <= i
    requires forall k :: GroupStart(s, i) <= k < i ==> s[k].footfall == c
    ensures Ratio(LagsOf(s, i).lag7, LagsOf(s, i).mean30) == Number(c as real / (c as real + 1.0))
  {
    ConstantHistory(s, i, c);
    RatioOfConstant(LagsOf(s, i), c);
  }

  lemma RatioOfConstant(l: LagFeatures, c: nat)
    requires l.lag7 == Number(c as real) && l.mean30 == Number(c as real)
    ensures Ratio(l.lag7, l.mean30) == Number(c as real / (c as real + 1.0))
  {
  }

  // ---------------------------------------------------------------- temporal and geographic features

  /** The day after a holiday is flagged from the previous row of the same PIN code; a group's first row gets 0. */
  lemma DayAfterHolidayFromPreviousRow(s: seq<Observation>, i: nat, holidays: seq<string>)
    requires SortedBy(s, ObsLe) && i < |s|
    ensures AfterHoliday(s, i, holidays) <==> GroupStart(s, i) < i && IsHolidayOn(s[i - 1].date, holidays)
  {
    GroupIsRun(s, i);
    PreviousRowOfRun(s, i);
  }

  lemma PreviousRowOfRun(s: seq<Observation>, i: nat)
    requires i < |s| && AfterItsGroup(s, i)
    ensures var prev := Group(s[..i], s[i].pincode);
      |prev| == i - GroupStart(s, i) && (|prev| > 0 ==> prev[|prev| - 1] == s[i - 1])
  {
  }

  /** The calendar features lie in their ranges and agree with each other. */
  lemma TemporalRanges(n: nat, holiday: bool, dayAfter: bool)
    ensures var t := TemporalOf(n, holiday, dayAfter);
      && 0 <= t.dayOfWeek <= 6
      && t.dayName == ["Monday", "Tuesday", "Wednesday", "Thursday", "Friday", "Saturday", "Sunday"][t.dayOfWeek]
      && 1 <= t.month <= 12 && 1 <= t.quarter <= 4 && 3 * (t.quarter - 1) < t.month <= 3 * t.quarter
      && 1 <= t.dayOfMonth <= 31 && 1 <= t.weekOfMonth <= 5
      && (t.isFirstWeek == 1 <==> t.dayOfMonth <= 7)
      && 1 <= t.dayOfYear <= 366
      && DayNumber(Date(CivilFromDays(n).year, t.month, t.dayOfMonth)) == n
  {
    CivilFromDaysValid(n);
  }

  /** Interaction flags are 1 exactly when both of their conditions hold. */
  lemma InteractionFlags(s: seq<Observation>, i: nat, holidays: seq<string>)
    requires i < |s|
    ensures var r := RowOf(s, i, holidays); var d := CivilFromDays(s[i].date);
      && (r.inter.ruralPension == 1 <==> s[i].centerType == "Rural" && d.month == 11)
      && (r.inter.urbanEnrollment == 1 <==> s[i].centerType == "Urban" && (d.month == 6 || d.month == 7))
      && (r.inter.mondayFirstWeek == 1 <==> DayOfWeek(s[i].date) == 0 && d.day <= 7)
      && (r.inter.weekendHoliday == 1 <==> DayOfWeek(s[i].date) >= 5 && IsHolidayOn(s[i].date, holidays))
  {
  }

  /** Factorize codes: two rows share a state (district) code exactly when they share the state (district). */
  lemma FactorizeCodes(s: seq<Observation>, i: nat, j: nat)
    requires i < |s| && j < |s|
    ensures GeoOf(s, i).stateEncoded == GeoOf(s, j).stateEncoded <==> s[i].state == s[j].state
    ensures GeoOf(s, i).districtEncoded == GeoOf(s, j).districtEncoded <==> s[i].district == s[j].district
    ensures 0 <= GeoOf(s, i).stateEncoded < |Distinct(States(s))|
  {
  }

  /** The center type code follows the mapping; no row is both urban and rural. */
  lemma CenterTypeCodes(s: seq<Observation>, i: nat)
    requires i < |s|
    ensures var g := GeoOf(s, i);
      && (g.centerTypeEncoded != NaN <==> Canonical(s[i].centerType))
      && g.isUrban + g.isRural <= 1
      && (g.isUrban == 1 <==> g.centerTypeEncoded == Number(2.0))
      && (g.isRural == 1 <==> g.centerTypeEncoded == Number(0.0))
  {
    var t := s[i].centerType;
    var g := GeoOf(s, i);
    assert g.centerTypeEncoded == TypeCode(t) && g.isUrban == Flag(t == "Urban") && g.isRural == Flag(t == "Rural");
    TypeCodeFlags(t);
  }

  lemma TypeCodeFlags(t: string)
    ensures TypeCode(t) != NaN <==> Canonical(t)
    ensures Flag(t == "Urban") + Flag(t == "Rural") <= 1
    ensures Flag(t == "Urban") == 1 <==> TypeCode(t) == Number(2.0)
    ensures Flag(t == "Rural") == 1 <==> TypeCode(t) == Number(0.0)
  {
  }
}
