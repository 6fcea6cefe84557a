/**
 * The real-data adapter: the column transforms `load_uidai_data` applies to a UIDAI export
 * (column mapping, PIN padding, centre-type mapping, name cleaning, per-key footfall totals,
 * the short-history warning) and the checks of `validate_data_for_modeling`.
 */
module RealData {
  import opened Wrappers
  import opened Seqs
  import opened Text
  import opened Tables

  // ---------------------------------------------------------------- column mapping

  /** The `column_mapping` dictionary: a UIDAI column name to the name the model expects; other names are kept. */
  function MappedName(c: string): string {
    if c == "visit_date" then "date"
    else if c == "center_pincode" then "pincode"
    else if c == "center_district" then "district"
    else if c == "center_state" then "state"
    else if c == "center_category" then "center_type"
    else if c == "total_enrollments" then "footfall"
    else c
  }

  /** `df.rename(columns=column_mapping)` on the column names, in order. */
  function RenameColumns(cols: seq<string>): (r: seq<string>)
    ensures |r| == |cols|
  {
    seq(|cols|, i requires 0 <= i < |cols| => MappedName(cols[i]))
  }

  /** The names the rest of the pipeline reads. */
  const Expected: seq<string> := ["date", "pincode", "district", "state", "center_type", "footfall"]

  /** The UIDAI names `column_mapping` knows, in the order of `Expected`. */
  const UidaiNames: seq<string> := ["visit_date", "center_pincode", "center_district", "center_state", "center_category", "total_enrollments"]

  /**
   * Renaming keeps every column in place, gives each expected name for its UIDAI name, and leaves
   * any name the mapping does not list as it was.
   */
  lemma RenameColumnsSpec(cols: seq<string>)
    ensures forall i :: 0 <= i < |cols| && cols[i] !in UidaiNames ==> RenameColumns(cols)[i] == cols[i]
    ensures forall i, k :: 0 <= i < |cols| && 0 <= k < 6 && cols[i] == UidaiNames[k] ==> RenameColumns(cols)[i] == Expected[k]
  {
  }

  /** An export with all six UIDAI names has every expected column once renamed. */
  lemma RenamedExportComplete(cols: seq<string>)
    requires forall k :: 0 <= k < 6 ==> UidaiNames[k] in cols
    ensures forall k :: 0 <= k < 6 ==> Expected[k] in RenameColumns(cols)
  {
    RenameColumnsSpec(cols);
    forall k | 0 <= k < 6 ensures Expected[k] in RenameColumns(cols) {
      var i :| 0 <= i < |cols| && cols[i] == UidaiNames[k];
      assert RenameColumns(cols)[i] == Expected[k];
    }
  }

  // ---------------------------------------------------------------- cell transforms

  /** A `pincode` cell as `read_csv` gives it: text, or a number when the column is all digits. */
  datatype PinCell = PinText(s: string) | PinNumber(n: int)

  /** `astype(str)`. */
  function PinString(c: PinCell): string {
    match c
    case PinText(s) => s
    case PinNumber(n) => IntToString(n)
  }

  /** `astype(str).str.zfill(6)`. */
  function PadPin(c: PinCell): (r: string)
    ensures |r| >= 6
  {
    ZFill(PinString(c), 6)
  }

  /**
   * A PIN code already six characters long is kept; a shorter unsigned one (any non-negative
   * number among them) gets zeros in front, so its text is a suffix of the result.
   */
  lemma PadPinSpec(c: PinCell)
    ensures |PinString(c)| >= 6 ==> PadPin(c) == PinString(c)
    ensures (c.PinNumber? && c.n >= 0) || (c.PinText? && (c.s == [] || (c.s[0] != '+' && c.s[0] != '-'))) ==>
      && |PadPin(c)| == (if |PinString(c)| >= 6 then |PinString(c)| else 6)
      && PadPin(c)[|PadPin(c)| - |PinString(c)|..] == PinString(c)
      && forall i :: 0 <= i < |PadPin(c)| - |PinString(c)| ==> PadPin(c)[i] == '0'
  {
    var s := PinString(c);
    if c.PinNumber? && c.n >= 0 {
      assert AllDigits(NatToString(c.n));
      assert s[0] != '+' && s[0] != '-';
    }
    if s == [] || (s[0] != '+' && s[0] != '-') {
      ZFillUnsigned(s, 6);
    }
  }

  /** `str.upper().map(center_type_mapping).fillna('Urban')`. */
  function CenterTypeOf(s: string): (r: string)
    ensures r == "Urban" || r == "Rural" || r == "Semi-Urban"
  {
    var u := Upper(s);
    if u == "URBAN" || u == "U" then "Urban"
    else if u == "RURAL" || u == "R" then "Rural"
    else if u == "SEMI_URBAN" || u == "SEMI-URBAN" || u == "SU" then "Semi-Urban"
    else "Urban"
  }

  /** The mapping ignores letter case: two spellings equal up to case map alike. */
  lemma CenterTypeCaseInsensitive(s: string, t: string)
    requires Lower(s) == Lower(t)
    ensures CenterTypeOf(s) == CenterTypeOf(t)
  {
    forall i | 0 <= i < |s| ensures Upper(s)[i] == Upper(t)[i] {
      CaseChars(s[i]);
      CaseChars(t[i]);
      assert LowerChar(s[i]) == LowerChar(t[i]);
    }
  }

  /** The canonical values map to themselves, so mapping the output again changes nothing. */
  lemma CenterTypeIdempotent(s: string)
    ensures CenterTypeOf(CenterTypeOf(s)) == CenterTypeOf(s)
  {
    var r := CenterTypeOf(s);
    if r == "Urban" {
      assert Upper(r) == "URBAN";
    } else if r == "Rural" {
      assert Upper(r) == "RURAL";
    } else {
      assert Upper(r) == "SEMI-URBAN";
    }
  }

  /** `str.strip().str.title()`. */
  function CleanName(s: string): string {
    Title(Strip(s))
  }

  /** Cleaning a cleaned name changes nothing. */
  lemma CleanNameIdempotent(s: string)
    ensures CleanName(CleanName(s)) == CleanName(s)
  {
    var x := Strip(s);
    var t := Title(x);
    StripSpec(s);
    TitleSpec(x);
    if |t| > 0 {
      assert !IsSpace(t[0]) && !IsSpace(t[|t| - 1]);
      StripTrimmed(t);
    }
    TitleIdempotent(x);
  }

  // ---------------------------------------------------------------- aggregation

  /** A row of the export once its columns are mapped; `date` is the day `pd.to_datetime` reads. */
  datatype Raw = Raw(date: nat, pincode: PinCell, district: string, state: string, centerType: string, footfall: int)

  /** The `groupby` key: date, PIN code, district, state and centre type. */
  datatype Key = Key(date: nat, pincode: string, district: string, state: string, centerType: string)

  /** The key of a row after the cell transforms, with its footfall. */
  function Cleaned(r: Raw): (Key, int) {
    (Key(r.date, PadPin(r.pincode), CleanName(r.district), CleanName(r.state), CenterTypeOf(r.centerType)), r.footfall)
  }

  function Keys<K>(p: seq<(K, int)>): (r: seq<K>)
    ensures |r| == |p| && forall i :: 0 <= i < |p| ==> r[i] == p[i].0
  {
    seq(|p|, i requires 0 <= i < |p| => p[i].0)
  }

  /** The footfall of all entries with key `k`. */
  function SumAt<K(==)>(p: seq<(K, int)>, k: K): int {
    if |p| == 0 then 0 else SumAt(p[..|p| - 1], k) + if p[|p| - 1].0 == k then p[|p| - 1].1 else 0
  }

  /** The footfall of all entries. */
  function Total<K>(p: seq<(K, int)>): int {
    if |p| == 0 then 0 else Total(p[..|p| - 1]) + p[|p| - 1].1
  }

  /** Adds `f` to the entry for `k`, or appends an entry for a new key. */
  function AddTo<K(==)>(g: seq<(K, int)>, k: K, f: int): (r: seq<(K, int)>)
    ensures |r| == if k in Keys(g) then |g| else |g| + 1
  {
    if |g| == 0 then [(k, f)]
    else if g[|g| - 1].0 == k then g[..|g| - 1] + [(k, g[|g| - 1].1 + f)]
    else
      assert Keys(g) == Keys(g[..|g| - 1]) + [g[|g| - 1].0];
      AddTo(g[..|g| - 1], k, f) + [g[|g| - 1]]
  }

  /** The summing of `groupby(keys).agg({'footfall': 'sum'})`: one entry per key, in order of first appearance (`GroupBy` then sorts them). */
  function Aggregate<K(==)>(p: seq<(K, int)>): seq<(K, int)> {
    if |p| == 0 then [] else AddTo(Aggregate(p[..|p| - 1]), p[|p| - 1].0, p[|p| - 1].1)
  }

  /** Adding to a key raises that key's sum, and the total, by the footfall added. */
  lemma {:induction false} AddToSums<K>(g: seq<(K, int)>, k: K, f: int)
    ensures forall j :: SumAt(AddTo(g, k, f), j) == SumAt(g, j) + if j == k then f else 0
    ensures Total(AddTo(g, k, f)) == Total(g) + f
  {
    if |g| > 0 {
      var init, last := g[..|g| - 1], g[|g| - 1];
      var r := AddTo(g, k, f);
      if last.0 == k {
        assert r[..|r| - 1] == init;
      } else {
        AddToSums(init, k, f);
        assert r[..|r| - 1] == AddTo(init, k, f);
      }
    }
  }

  /** Adding to a key adds that key, if new, and keeps the keys unique. */
  lemma {:induction false} AddToKeys<K>(g: seq<(K, int)>, k: K, f: int)
    ensures forall j :: j in Keys(AddTo(g, k, f)) <==> j in Keys(g) || j == k
    ensures NoDuplicates(Keys(g)) ==> NoDuplicates(Keys(AddTo(g, k, f)))
  {
    if |g| > 0 {
      var init, last := g[..|g| - 1], g[|g| - 1];
      assert g == init + [last];
      assert Keys(g) == Keys(init) + [last.0];
      var r := AddTo(g, k, f);
      if last.0 == k {
        assert r[..|r| - 1] == init;
        assert Keys(r) == Keys(init) + [k];
      } else {
        AddToKeys(init, k, f);
        assert r[..|r| - 1] == AddTo(init, k, f);
        assert Keys(r) == Keys(AddTo(init, k, f)) + [last.0];
        if NoDuplicates(Keys(g)) {
          assert last.0 !in Keys(init);
          assert last.0 !in Keys(AddTo(init, k, f));
        }
      }
    } else {
      assert Keys(AddTo(g, k, f)) == [k];
    }
  }

  /**
   * After aggregation each key occurs once, every key of the input and no other occurs, each
   * key's footfall is the sum over the input rows with that key, and the total is preserved.
   */
  lemma AggregateSpec<K>(p: seq<(K, int)>)
    ensures NoDuplicates(Keys(Aggregate(p)))
    ensures forall j :: j in Keys(Aggregate(p)) <==> j in Keys(p)
    ensures forall j :: SumAt(Aggregate(p), j) == SumAt(p, j)
    ensures Total(Aggregate(p)) == Total(p)
  {
    AggregateKeys(p);
    AggregateSums(p);
  }

  lemma {:induction false} AggregateKeys<K>(p: seq<(K, int)>)
    ensures NoDuplicates(Keys(Aggregate(p)))
    ensures forall j :: j in Keys(Aggregate(p)) <==> j in Keys(p)
  {
    if |p| > 0 {
      var init, last := p[..|p| - 1], p[|p| - 1];
      var g := Aggregate(init);
      assert Aggregate(p) == AddTo(g, last.0, last.1);
      AggregateKeys(init);
      AddToKeys(g, last.0, last.1);
      assert Keys(p) == Keys(init) + [last.0];
      forall j ensures j in Keys(Aggregate(p)) <==> j in Keys(p) {
        assert j in Keys(p) <==> j in Keys(init) || j == last.0;
      }
    }
  }

  lemma {:induction false} AggregateSums<K>(p: seq<(K, int)>)
    ensures forall j :: SumAt(Aggregate(p), j) == SumAt(p, j)
    ensures Total(Aggregate(p)) == Total(p)
  {
    if |p| > 0 {
      var init := p[..|p| - 1];
      AggregateSums(init);
      AddToSums(Aggregate(init), p[|p| - 1].0, p[|p| - 1].1);
    }
  }

  /** With each key once, a key's sum is the footfall of its one entry. */
  lemma {:induction false} SumAtUnique<K>(g: seq<(K, int)>, i: nat)
    requires NoDuplicates(Keys(g)) && i < |g|
    ensures SumAt(g, g[i].0) == g[i].1
  {
    var init := g[..|g| - 1];
    if i < |g| - 1 {
      assert Keys(init) == Keys(g)[..|g| - 1];
      SumAtUnique(init, i);
    } else {
      AbsentSum(init, g[i].0);
    }
  }

  lemma {:induction false} AbsentSum<K>(g: seq<(K, int)>, k: K)
    requires k !in Keys(g)
    ensures SumAt(g, k) == 0
  {
    if |g| > 0 {
      assert Keys(g[..|g| - 1]) == Keys(g)[..|g| - 1];
      AbsentSum(g[..|g| - 1], k);
    }
  }

  // ---------------------------------------------------------------- group order

  /** Lexicographic order on equally long lists of strings, each compared in Python's string order. */
  predicate TextsLe(xs: seq<string>, ys: seq<string>)
    requires |xs| == |ys|
  {
    |xs| == 0 || (if xs[0] != ys[0] then StrLe(xs[0], ys[0]) else TextsLe(xs[1..], ys[1..]))
  }

  lemma {:induction false} TextsLeTotal(xs: seq<string>, ys: seq<string>)
    requires |xs| == |ys|
    ensures TextsLe(xs, ys) || TextsLe(ys, xs)
  {
    if |xs| > 0 {
      if xs[0] != ys[0] {
        StrLeTotal(xs[0], ys[0]);
      } else {
        TextsLeTotal(xs[1..], ys[1..]);
      }
    }
  }

  lemma {:induction false} TextsLeTransitive(xs: seq<string>, ys: seq<string>, zs: seq<string>)
    requires |xs| == |ys| == |zs| && TextsLe(xs, ys) && TextsLe(ys, zs)
    ensures TextsLe(xs, zs)
  {
    if |xs| > 0 {
      if xs[0] == ys[0] && ys[0] == zs[0] {
        TextsLeTransitive(xs[1..], ys[1..], zs[1..]);
      } else if xs[0] != ys[0] && ys[0] != zs[0] {
        StrLeTransitive(xs[0], ys[0], zs[0]);
        if xs[0] == zs[0] {
          StrLeAntisymmetric(xs[0], ys[0]);
        }
      }
    }
  }

  function KeyTexts(k: Key): seq<string> {
    [k.pincode, k.district, k.state, k.centerType]
  }

  /**
   * The order `groupby` sorts its keys in: by date (the `%Y-%m-%d` text, whose order is the
   * order of the days), then PIN code, district, state and centre type as text.
   */
  predicate EntryLe(a: (Key, int), b: (Key, int)) {
    if a.0.date != b.0.date then a.0.date < b.0.date else TextsLe(KeyTexts(a.0), KeyTexts(b.0))
  }

  lemma EntryLeTotalPreorder()
    ensures TotalPreorder(EntryLe)
  {
    forall a: (Key, int), b: (Key, int) ensures EntryLe(a, b) || EntryLe(b, a) {
      TextsLeTotal(KeyTexts(a.0), KeyTexts(b.0));
    }
    forall a: (Key, int), b: (Key, int), c: (Key, int) | EntryLe(a, b) && EntryLe(b, c) ensures EntryLe(a, c) {
      if a.0.date == b.0.date == c.0.date {
        TextsLeTransitive(KeyTexts(a.0), KeyTexts(b.0), KeyTexts(c.0));
      }
    }
  }

  /** `groupby(keys, as_index=False).agg({'footfall': 'sum'})`: the sums, sorted by key. */
  function GroupBy(p: seq<(Key, int)>): (r: seq<(Key, int)>)
    ensures SortedBy(r, EntryLe) && multiset(r) == multiset(Aggregate(p))
  {
    EntryLeTotalPreorder();
    SortBySpec(Aggregate(p), EntryLe);
    SortBy(Aggregate(p), EntryLe)
  }

  /** Reordering entries keeps their keys, and keeps them unique. */
  lemma PermutedKeys<K>(x: seq<(K, int)>, y: seq<(K, int)>)
    requires multiset(x) == multiset(y)
    ensures forall k :: k in Keys(x) <==> k in Keys(y)
    ensures NoDuplicates(Keys(x)) ==> NoDuplicates(Keys(y))
  {
    forall k | k in Keys(x) ensures k in Keys(y) {
      var i :| 0 <= i < |x| && Keys(x)[i] == k;
      assert x[i] in multiset(y);
      var j :| 0 <= j < |y| && y[j] == x[i];
      assert Keys(y)[j] == k;
    }
    forall k | k in Keys(y) ensures k in Keys(x) {
      var i :| 0 <= i < |y| && Keys(y)[i] == k;
      assert y[i] in multiset(x);
      var j :| 0 <= j < |x| && x[j] == y[i];
      assert Keys(x)[j] == k;
    }
    if NoDuplicates(Keys(x)) {
      forall i, j | 0 <= i < j < |y| ensures Keys(y)[i] != Keys(y)[j] {
        if Keys(y)[i] == Keys(y)[j] {
          assert y[i] in multiset(x) && y[j] in multiset(x);
          var p :| 0 <= p < |x| && x[p] == y[i];
          var q :| 0 <= q < |x| && x[q] == y[j];
          assert Keys(x)[p] == Keys(x)[q];
          assert p == q;
          TwiceCounted(y, i, j);
          UniqueCounted(x, y[i]);
          assert false;
        }
      }
    }
  }

  lemma TwiceCounted<T>(s: seq<T>, i: nat, j: nat)
    requires i < j < |s| && s[i] == s[j]
    ensures multiset(s)[s[i]] >= 2
  {
    assert s == s[..j] + [s[j]] + s[j + 1..];
    assert s[i] in multiset(s[..j]);
  }

  lemma {:induction false} UniqueCounted<K>(x: seq<(K, int)>, e: (K, int))
    requires NoDuplicates(Keys(x))
    ensures multiset(x)[e] <= 1
  {
    if |x| > 0 {
      var init := x[..|x| - 1];
      assert x == init + [x[|x| - 1]];
      assert Keys(init) == Keys(x)[..|x| - 1];
      UniqueCounted(init, e);
    }
  }

  lemma {:induction false} TotalCons<K>(a: (K, int), s: seq<(K, int)>)
    ensures Total([a] + s) == a.1 + Total(s)
  {
    if |s| > 0 {
      assert ([a] + s)[..|s|] == [a] + s[..|s| - 1];
      TotalCons(a, s[..|s| - 1]);
    }
  }

  lemma {:induction false} TotalInsert(e: (Key, int), s: seq<(Key, int)>)
    ensures Total(Insert(e, s, EntryLe)) == Total(s) + e.1
  {
    if |s| > 0 {
      assert s == [s[0]] + s[1..];
      TotalCons(s[0], s);
      TotalCons(s[0], s[1..]);
      if EntryLe(s[0], e) {
        TotalInsert(e, s[1..]);
        TotalCons(s[0], Insert(e, s[1..], EntryLe));
      } else {
        TotalCons(e, s);
      }
    }
  }

  /** Sorting keeps the total footfall. */
  lemma {:induction false} TotalSorted(s: seq<(Key, int)>)
    ensures Total(SortBy(s, EntryLe)) == Total(s)
  {
    if |s| > 0 {
      TotalSorted(s[..|s| - 1]);
      TotalInsert(s[|s| - 1], SortBy(s[..|s| - 1], EntryLe));
    }
  }

  /** The rows `load_uidai_data` returns, and whether it warns that there are too few days. */
  datatype Loaded = Loaded(rows: seq<(Key, int)>, fewDays: bool)

  /** Lag features need this many distinct days. */
  const MinDays := 60

  function DatesOf(p: seq<(Key, int)>): (r: seq<nat>)
    ensures |r| == |p| && forall i :: 0 <= i < |p| ==> r[i] == p[i].0.date
  {
    seq(|p|, i requires 0 <= i < |p| => p[i].0.date)
  }

  /** The export rows after the cell transforms, each with its footfall. */
  function CleanRows(raws: seq<Raw>): (r: seq<(Key, int)>)
    ensures |r| == |raws|
  {
    seq(|raws|, i requires 0 <= i < |raws| => Cleaned(raws[i]))
  }

  function RawDates(raws: seq<Raw>): (r: seq<nat>)
    ensures |r| == |raws|
  {
    seq(|raws|, i requires 0 <= i < |raws| => raws[i].date)
  }

  /** `load_uidai_data` after the file is read: transform each row, aggregate, and count the days. */
  function Load(raws: seq<Raw>): Loaded {
    var rows := GroupBy(CleanRows(raws));
    Loaded(rows, |Distinct(DatesOf(rows))| < MinDays)
  }

  /**
   * The output is sorted by key, each key is unique and carries the footfall summed over the
   * export rows that clean to it, the keys are exactly those of the cleaned rows, and the total
   * footfall is that of the export.
   */
  lemma LoadTotals(raws: seq<Raw>)
    ensures var out := Load(raws);
      && SortedBy(out.rows, EntryLe)
      && NoDuplicates(Keys(out.rows))
      && (forall k :: k in Keys(out.rows) <==> k in Keys(CleanRows(raws)))
      && (forall i :: 0 <= i < |out.rows| ==> out.rows[i].1 == SumAt(CleanRows(raws), out.rows[i].0))
      && Total(out.rows) == Total(CleanRows(raws))
  {
    var cleaned := CleanRows(raws);
    var agg := Aggregate(cleaned);
    var rows := GroupBy(cleaned);
    AggregateSpec(cleaned);
    PermutedKeys(agg, rows);
    PermutedSums(cleaned, agg, rows);
    TotalSorted(agg);
  }

  lemma PermutedSums(cleaned: seq<(Key, int)>, agg: seq<(Key, int)>, rows: seq<(Key, int)>)
    requires NoDuplicates(Keys(agg)) && multiset(rows) == multiset(agg)
    requires forall j :: SumAt(agg, j) == SumAt(cleaned, j)
    ensures forall i :: 0 <= i < |rows| ==> rows[i].1 == SumAt(cleaned, rows[i].0)
  {
    forall i | 0 <= i < |rows| ensures rows[i].1 == SumAt(cleaned, rows[i].0) {
      assert rows[i] in multiset(agg);
      var j :| 0 <= j < |agg| && agg[j] == rows[i];
      SumAtUnique(agg, j);
    }
  }

  /** The warning is given exactly when the export covers fewer than 60 different days. */
  lemma LoadWarning(raws: seq<Raw>)
    ensures Load(raws).fewDays <==> |Elements(RawDates(raws))| < MinDays
  {
    var cleaned := CleanRows(raws);
    var rows := GroupBy(cleaned);
    AggregateSpec(cleaned);
    PermutedKeys(Aggregate(cleaned), rows);
    SameDates(cleaned, rows);
    CleanKeepsDates(raws);
    DistinctCount(DatesOf(rows));
  }

  /** The cell transforms leave each row's date alone. */
  lemma CleanKeepsDates(raws: seq<Raw>)
    ensures DatesOf(CleanRows(raws)) == RawDates(raws)
  {
  }

  /** Two collections with the same keys cover the same days. */
  lemma SameDates(p: seq<(Key, int)>, q: seq<(Key, int)>)
    requires forall j :: j in Keys(q) <==> j in Keys(p)
    ensures Elements(DatesOf(q)) == Elements(DatesOf(p))
  {
    forall d | d in DatesOf(q) ensures d in DatesOf(p) {
      var k :| 0 <= k < |q| && DatesOf(q)[k] == d;
      assert Keys(q)[k] in Keys(q);
      var i :| 0 <= i < |p| && Keys(p)[i] == q[k].0;
      assert DatesOf(p)[i] == d;
    }
    forall d | d in DatesOf(p) ensures d in DatesOf(q) {
      var k :| 0 <= k < |p| && DatesOf(p)[k] == d;
      assert Keys(p)[k] in Keys(p);
      var i :| 0 <= i < |q| && Keys(q)[i] == p[k].0;
      assert DatesOf(q)[i] == d;
    }
  }

  // ---------------------------------------------------------------- validation

  /** A row of the saved data as `validate_data_for_modeling` reads it back. */
  datatype Row = Row(date: nat, pincode: string, footfall: int)

  /** One entry of the `issues` list. */
  datatype Issue = ColumnsMissing(columns: seq<string>) | LowCoverage(pins: nat) | Outdated(age: int) | NegativeFootfall

  /** Pins need this many distinct days, and the newest row may be this many days old. */
  const MinPinDays := 30
  const MaxAge := 90

  function NotIn(columns: seq<string>): string -> bool {
    c => c !in columns
  }

  /** `[col for col in required_cols if col not in df.columns]`. */
  function MissingColumns(columns: seq<string>): seq<string> {
    Filter(Expected, NotIn(columns))
  }

  function PincodesOf(rows: seq<Row>): (r: seq<string>)
    ensures |r| == |rows| && forall i :: 0 <= i < |rows| ==> r[i] == rows[i].pincode
  {
    seq(|rows|, i requires 0 <= i < |rows| => rows[i].pincode)
  }

  /** The dates of the rows of one PIN code. */
  function PinDates(rows: seq<Row>, pin: string): seq<nat> {
    if |rows| == 0 then []
    else PinDates(rows[..|rows| - 1], pin) + if rows[|rows| - 1].pincode == pin then [rows[|rows| - 1].date] else []
  }

  /** `groupby('pincode')['date'].nunique()` for one PIN code. */
  function Coverage(rows: seq<Row>, pin: string): nat {
    |Distinct(PinDates(rows, pin))|
  }

  function Sparse(rows: seq<Row>): string -> bool {
    pin => Coverage(rows, pin) < MinPinDays
  }

  /** `pin_coverage[pin_coverage < 30].index`, in order of first appearance. */
  function LowCoveragePins(rows: seq<Row>): seq<string> {
    Filter(Distinct(PincodesOf(rows)), Sparse(rows))
  }

  /** `df['date'].max()`. */
  function Latest(rows: seq<Row>): (r: nat)
    requires |rows| > 0
    ensures (exists i :: 0 <= i < |rows| && rows[i].date == r) && forall i :: 0 <= i < |rows| ==> rows[i].date <= r
  {
    if |rows| == 1 then rows[0].date
    else var m := Latest(rows[..|rows| - 1]); if rows[|rows| - 1].date > m then rows[|rows| - 1].date else m
  }

  /**
   * The issues the checks record, in order, for a table that has `date`, `pincode` and
   * `footfall`; `today` is the day `pd.Timestamp.now()` falls on. An empty table has no newest
   * date, so it is never reported as old.
   */
  function Issues(columns: seq<string>, rows: seq<Row>, today: int): seq<Issue> {
    var missing := MissingColumns(columns);
    var low := LowCoveragePins(rows);
    (if missing != [] then [ColumnsMissing(missing)] else [])
    + (if low != [] then [LowCoverage(|low|)] else [])
    + (if |rows| > 0 && today - Latest(rows) > MaxAge then [Outdated(today - Latest(rows))] else [])
    + (if exists i :: 0 <= i < |rows| && rows[i].footfall < 0 then [NegativeFootfall] else [])
  }

  /**
   * The table passes exactly when every required column is present, every PIN code has at
   * least 30 distinct days, the newest row is at most 90 days old and no footfall is negative.
   */
  lemma NoIssuesIff(columns: seq<string>, rows: seq<Row>, today: int)
    ensures Issues(columns, rows, today) == [] <==>
      && (forall k :: 0 <= k < |Expected| ==> Expected[k] in columns)
      && (forall i :: 0 <= i < |rows| ==> Coverage(rows, rows[i].pincode) >= MinPinDays)
      && (|rows| > 0 ==> today - Latest(rows) <= MaxAge)
      && (forall i :: 0 <= i < |rows| ==> rows[i].footfall >= 0)
  {
    IssuesParts(columns, rows, today);
    MissingIff(columns);
    LowIff(rows);
  }

  lemma IssuesParts(columns: seq<string>, rows: seq<Row>, today: int)
    ensures Issues(columns, rows, today) == [] <==>
      && MissingColumns(columns) == []
      && LowCoveragePins(rows) == []
      && (|rows| > 0 ==> today - Latest(rows) <= MaxAge)
      && (forall i :: 0 <= i < |rows| ==> rows[i].footfall >= 0)
  {
    var missing := MissingColumns(columns);
    var low := LowCoveragePins(rows);
    var a: seq<Issue> := if missing != [] then [ColumnsMissing(missing)] else [];
    var b: seq<Issue> := if low != [] then [LowCoverage(|low|)] else [];
    var c: seq<Issue> := if |rows| > 0 && today - Latest(rows) > MaxAge then [Outdated(today - Latest(rows))] else [];
    var e: seq<Issue> := if exists i :: 0 <= i < |rows| && rows[i].footfall < 0 then [NegativeFootfall] else [];
    assert Issues(columns, rows, today) == a + b + c + e;
    assert |a + b + c + e| == |a| + |b| + |c| + |e|;
  }

  lemma MissingIff(columns: seq<string>)
    ensures MissingColumns(columns) == [] <==> forall k :: 0 <= k < |Expected| ==> Expected[k] in columns
  {
    FilterMembers(Expected, NotIn(columns));
    if forall k :: 0 <= k < |Expected| ==> Expected[k] in columns {
      FilterNone(Expected, NotIn(columns));
    }
  }

  lemma LowIff(rows: seq<Row>)
    ensures LowCoveragePins(rows) == [] <==> forall i :: 0 <= i < |rows| ==> Coverage(rows, rows[i].pincode) >= MinPinDays
  {
    if forall i :: 0 <= i < |rows| ==> Coverage(rows, rows[i].pincode) >= MinPinDays {
      LowNone(rows);
    } else {
      var i :| 0 <= i < |rows| && Coverage(rows, rows[i].pincode) < MinPinDays;
      LowSome(rows, i);
    }
  }

  lemma LowNone(rows: seq<Row>)
    requires forall i :: 0 <= i < |rows| ==> Coverage(rows, rows[i].pincode) >= MinPinDays
    ensures LowCoveragePins(rows) == []
  {
    var pins := Distinct(PincodesOf(rows));
    forall k | 0 <= k < |pins| ensures !Sparse(rows)(pins[k]) {
      var i :| 0 <= i < |rows| && PincodesOf(rows)[i] == pins[k];
    }
    FilterNone(pins, Sparse(rows));
  }

  lemma LowSome(rows: seq<Row>, i: nat)
    requires i < |rows| && Coverage(rows, rows[i].pincode) < MinPinDays
    ensures LowCoveragePins(rows) != []
  {
    var pins := Distinct(PincodesOf(rows));
    FilterMembers(pins, Sparse(rows));
    assert PincodesOf(rows)[i] in pins;
  }

  /**
   * `validate_data_for_modeling` on a table read back from CSV: the checks run in order and
   * append to `issues`; reading `df['date']`, grouping by `pincode` and comparing `footfall`
   * raise KeyError when that column is absent.
   */
  method ValidateForModeling(columns: seq<string>, rows: seq<Row>, today: int) returns (r: Result<bool, Error>)
    ensures "date" !in columns ==> r == Err(KeyError("date"))
    ensures "date" in columns && "pincode" !in columns ==> r == Err(KeyError("pincode"))
    ensures "date" in columns && "pincode" in columns && "footfall" !in columns ==> r == Err(KeyError("footfall"))
    ensures "date" in columns && "pincode" in columns && "footfall" in columns ==> r == Ok(Issues(columns, rows, today) == [])
  {
    if "date" !in columns {
      return Err(KeyError("date"));
    }
    var issues: seq<Issue> := [];
    var missing := MissingColumns(columns);
    if missing != [] {
      issues := issues + [ColumnsMissing(missing)];
    }
    if "pincode" !in columns {
      return Err(KeyError("pincode"));
    }
    var low := LowCoveragePins(rows);
    if low != [] {
      issues := issues + [LowCoverage(|low|)];
    }
    if |rows| > 0 {
      var age := today - Latest(rows);
      if age > MaxAge {
        issues := issues + [Outdated(age)];
      }
    }
    if "footfall" !in columns {
      return Err(KeyError("footfall"));
    }
    if exists i :: 0 <= i < |rows| && rows[i].footfall < 0 {
      issues := issues + [NegativeFootfall];
    }
    r := Ok(issues == []);
  }
}
