/**
 * `FeatureEngineer._validate_and_fix_columns`: repair a raw footfall table before features
 * are built. Synonym column names are renamed (only when a required column is missing, and
 * never onto a name already present), a missing `center_type` is inferred from footfall, a
 * missing `district`/`state` gets a default, PIN codes become text, `center_type` spellings are
 * made canonical, and a table still lacking a required column is refused.
 */
module Reconcile {
  import opened Wrappers
  import opened Seqs
  import opened Calendar
  import opened Text
  import opened IsoDate
  import opened Tables

  const Required: seq<string> := ["date", "pincode", "footfall", "district", "state", "center_type"]

  /** Synonym column names and their canonical names, in the order the renames are tried. */
  const ColumnSynonyms: seq<(string, string)> := [
    ("Date", "date"), ("DATE", "date"), ("transaction_date", "date"), ("visit_date", "date"),
    ("PIN", "pincode"), ("pin", "pincode"), ("PIN_code", "pincode"), ("pin_code", "pincode"),
    ("PINCODE", "pincode"), ("pec_id", "pincode"), ("center_id", "pincode"),
    ("Footfall", "footfall"), ("FOOTFALL", "footfall"), ("count", "footfall"), ("visitors", "footfall"),
    ("footfall_count", "footfall"), ("daily_count", "footfall"), ("transactions", "footfall"),
    ("enrollments", "footfall"),
    ("District", "district"), ("DISTRICT", "district"), ("dist", "district"),
    ("State", "state"), ("STATE", "state"),
    ("center_type", "center_type"), ("Center_Type", "center_type"), ("CENTER_TYPE", "center_type"),
    ("type", "center_type"), ("location_type", "center_type"), ("pec_type", "center_type")
  ]

  /** `center_type_mapping`: the accepted spellings of the three center types. */
  function Spelling(t: string): Option<string> {
    if t == "urban" || t == "URBAN" || t == "U" then Some("Urban")
    else if t == "rural" || t == "RURAL" || t == "R" then Some("Rural")
    else if t == "semi-urban" || t == "semi urban" || t == "SEMI-URBAN" || t == "SEMI URBAN" || t == "S" || t == "semiurban" then
      Some("Semi-Urban")
    else None
  }

  predicate Canonical(t: string) {
    t == "Urban" || t == "Rural" || t == "Semi-Urban"
  }

  /** Every required column is present. */
  predicate AllRequired(f: Frame) {
    && "date" in f.cells && "pincode" in f.cells && "footfall" in f.cells
    && "district" in f.cells && "state" in f.cells && "center_type" in f.cells
  }

  /** `[c for c in names if c not in df.columns]`. */
  function Absent(names: seq<string>, f: Frame): (r: seq<string>)
    ensures |r| <= |names|
  {
    if |names| == 0 then []
    else Absent(names[..|names| - 1], f) + (if names[|names| - 1] in f.cells then [] else [names[|names| - 1]])
  }

  /** The absent names are exactly the listed names that are not columns. */
  lemma {:induction false} AbsentMembers(names: seq<string>, f: Frame)
    ensures forall c :: c in Absent(names, f) <==> c in names && c !in f.cells
  {
    if |names| > 0 {
      var init := names[..|names| - 1];
      AbsentMembers(init, f);
      assert names == init + [names[|names| - 1]];
    }
  }

  /** The required columns a frame lacks, in the order they are listed. */
  function MissingRequired(f: Frame): (r: seq<string>)
    ensures |r| == 0 <==> AllRequired(f)
  {
    var r := Absent(Required, f);
    MissingRequiredMembers(f);
    assert |r| > 0 ==> r[0] in r;
    r
  }

  lemma MissingRequiredMembers(f: Frame)
    ensures forall c :: c in Absent(Required, f) <==> c in Required && c !in f.cells
    ensures AllRequired(f) <==> forall c :: c in Required ==> c in f.cells
  {
    AbsentMembers(Required, f);
  }

  // ---------------------------------------------------------------- step 1: synonym renames

  /** One rename of the mapping: applied only when the synonym is present and its target absent. */
  predicate Applies(f: Frame, p: (string, string)) {
    p.0 in f.cells && p.1 !in f.cells
  }

  function RenameStep(f: Frame, p: (string, string)): (r: Frame)
    requires WF(f)
    ensures WF(r) && r.height == f.height
  {
    if Applies(f, p) then Rename(f, p.0, p.1) else f
  }

  /** The frame after trying the renames of `m` in order. */
  function ApplyRenames(f: Frame, m: seq<(string, string)>): (r: Frame)
    requires WF(f)
    ensures WF(r) && r.height == f.height
  {
    if |m| == 0 then f else RenameStep(ApplyRenames(f, m[..|m| - 1]), m[|m| - 1])
  }

  /** How many renames of `m` were applied. */
  function RenameCount(f: Frame, m: seq<(string, string)>): nat
    requires WF(f)
  {
    if |m| == 0 then 0
    else RenameCount(f, m[..|m| - 1]) + (if Applies(ApplyRenames(f, m[..|m| - 1]), m[|m| - 1]) then 1 else 0)
  }

  /** The frame after step 1: the synonym renames are tried only when a required column is missing. */
  function Renamed(f: Frame): (r: Frame)
    requires WF(f)
    ensures WF(r) && r.height == f.height
  {
    if !AllRequired(f) then ApplyRenames(f, ColumnSynonyms) else f
  }

  // ---------------------------------------------------------------- step 2: inferred and default columns

  /** The center type a footfall value suggests: above 150 Urban, below 100 Rural, else Semi-Urban. */
  function TypeFromFootfall(x: int): (r: string)
    ensures Canonical(r)
  {
    if x > 150 then "Urban" else if x < 100 then "Rural" else "Semi-Urban"
  }

  function InferredCell(c: Cell): Cell {
    if c.Num? then Text(TypeFromFootfall(c.i)) else c
  }

  predicate AllNumbers(cells: seq<Cell>) {
    forall i :: 0 <= i < |cells| ==> cells[i].Num?
  }

  /** The center types inferred row by row from a footfall column. */
  function InferredTypes(ff: seq<Cell>): (r: seq<Cell>)
    ensures |r| == |ff|
  {
    if |ff| == 0 then [] else InferredTypes(ff[..|ff| - 1]) + [InferredCell(ff[|ff| - 1])]
  }

  lemma {:induction false} InferredTypesAt(ff: seq<Cell>)
    ensures forall i :: 0 <= i < |ff| ==> InferredTypes(ff)[i] == InferredCell(ff[i])
  {
    if |ff| > 0 {
      InferredTypesAt(ff[..|ff| - 1]);
    }
  }

  /**
   * A missing `center_type` column: inferred from `footfall` when there is one (comparing a
   * non-number with 150 raises TypeError), otherwise Urban everywhere.
   */
  function WithCenterType(g: Frame): (r: Result<Frame, Error>)
    requires WF(g)
    ensures r.Ok? ==> WF(r.value) && r.value.height == g.height && "center_type" in r.value.cells
    ensures r.Ok? ==> r.value.columns == if "center_type" in g.cells then g.columns else g.columns + ["center_type"]
    ensures r.Err? <==> "center_type" !in g.cells && "footfall" in g.cells && !AllNumbers(Column(g, "footfall"))
    ensures r.Err? ==> r.error.TypeError?
  {
    if "center_type" in g.cells then Ok(g)
    else if "footfall" in g.cells then
      var ff := Column(g, "footfall");
      if AllNumbers(ff) then Ok(SetColumn(g, "center_type", InferredTypes(ff)))
      else Err(TypeError("'>' not supported between a non-numeric footfall and 'int'"))
    else Ok(SetColumn(g, "center_type", Fill(g, Text("Urban"))))
  }

  /** `df[c] = v` for a column that is missing; a present column is left alone. */
  function WithDefault(g: Frame, c: string, v: string): (r: Frame)
    requires WF(g)
    ensures WF(r) && r.height == g.height
    ensures r.columns == if c in g.cells then g.columns else g.columns + [c]
    ensures r.cells == if c in g.cells then g.cells else g.cells[c := Fill(g, Text(v))]
  {
    if c in g.cells then g else SetColumn(g, c, Fill(g, Text(v)))
  }

  // ---------------------------------------------------------------- steps 3 and 4: cell values

  /** `str(x)` of a cell: a Python int in decimal, a parsed date as pandas prints a timestamp. */
  function CellText(c: Cell): string {
    match c
    case Text(s) => s
    case Num(i) => IntToString(i)
    case Day(n) => CivilFromDaysValid(n); FormatIso(CivilFromDays(n)) + " 00:00:00"
  }

  /** `astype(str)` on a column. */
  function AsText(cells: seq<Cell>): (r: seq<Cell>)
    ensures |r| == |cells|
  {
    if |cells| == 0 then [] else AsText(cells[..|cells| - 1]) + [Text(CellText(cells[|cells| - 1]))]
  }

  lemma {:induction false} AsTextAt(cells: seq<Cell>)
    ensures forall i :: 0 <= i < |cells| ==> AsText(cells)[i] == Text(CellText(cells[i]))
  {
    if |cells| > 0 {
      AsTextAt(cells[..|cells| - 1]);
    }
  }

  /** A column that is already text is unchanged by `astype(str)`. */
  lemma AsTextOfText(cells: seq<Cell>)
    requires forall i :: 0 <= i < |cells| ==> cells[i].Text?
    ensures AsText(cells) == cells
  {
    AsTextAt(cells);
  }

  /** `replace(center_type_mapping)`: listed spellings become their canonical value. */
  function Respelled(c: Cell): Cell {
    if c.Text? && Spelling(c.s).Some? then Text(Spelling(c.s).value) else c
  }

  predicate ValidType(c: Cell) {
    c.Text? && Canonical(c.s)
  }

  /** Respelling, then anything that is still not a canonical type becomes Urban. */
  function NormalizedType(c: Cell): (r: Cell)
    ensures ValidType(r)
  {
    var t := Respelled(c);
    if ValidType(t) then t
    else Text("Urban")
  }

  function NormalizedTypes(cells: seq<Cell>): (r: seq<Cell>)
    ensures |r| == |cells|
  {
    if |cells| == 0 then [] else NormalizedTypes(cells[..|cells| - 1]) + [NormalizedType(cells[|cells| - 1])]
  }

  lemma {:induction false} NormalizedTypesAt(cells: seq<Cell>)
    ensures forall i :: 0 <= i < |cells| ==> NormalizedTypes(cells)[i] == NormalizedType(cells[i])
  {
    if |cells| > 0 {
      NormalizedTypesAt(cells[..|cells| - 1]);
    }
  }

  /** Some value is neither a listed spelling nor canonical (this counts as one fixed issue). */
  predicate AnyInvalidType(cells: seq<Cell>) {
    |cells| > 0 && (AnyInvalidType(cells[..|cells| - 1]) || !ValidType(Respelled(cells[|cells| - 1])))
  }

  /** `AnyInvalidType` holds exactly when some value is neither a listed spelling nor canonical. */
  lemma {:induction false} AnyInvalidTypeAt(cells: seq<Cell>)
    ensures AnyInvalidType(cells) <==> exists i :: 0 <= i < |cells| && !ValidType(Respelled(cells[i]))
  {
    if |cells| > 0 {
      var init := cells[..|cells| - 1];
      AnyInvalidTypeAt(init);
      if AnyInvalidType(init) {
        var i :| 0 <= i < |init| && !ValidType(Respelled(init[i]));
        assert cells[i] == init[i];
      }
      if exists i :: 0 <= i < |cells| && !ValidType(Respelled(cells[i])) {
        var i :| 0 <= i < |cells| && !ValidType(Respelled(cells[i]));
        if i < |init| {
          assert init[i] == cells[i];
        }
      }
    }
  }

  function WithTextPincodes(g: Frame): (r: Frame)
    requires WF(g)
    ensures WF(r) && r.height == g.height && r.columns == g.columns
    ensures r.cells == if "pincode" in g.cells then g.cells["pincode" := AsText(g.cells["pincode"])] else g.cells
  {
    if "pincode" in g.cells then SetColumn(g, "pincode", AsText(Column(g, "pincode"))) else g
  }

  /** `center_type` respelled and defaulted to Urban where invalid. */
  function WithCanonicalTypes(g: Frame): (r: Frame)
    requires WF(g) && "center_type" in g.cells
    ensures WF(r) && r.height == g.height && r.columns == g.columns
    ensures r.cells == g.cells["center_type" := NormalizedTypes(g.cells["center_type"])]
  {
    SetColumn(g, "center_type", NormalizedTypes(Column(g, "center_type")))
  }

  /** Steps 2 (defaults), 3 and 4 on a frame that has a center type column. */
  function Finish(g1: Frame): (r: Frame)
    requires WF(g1) && "center_type" in g1.cells
    ensures WF(r) && r.height == g1.height
  {
    var g2 := WithDefault(g1, "district", "Unknown District");
    var g3 := WithDefault(g2, "state", "Unknown State");
    WithCanonicalTypes(WithTextPincodes(g3))
  }

  /** The steps after the center type append the missing default columns and add no other. */
  lemma FinishColumns(g1: Frame)
    requires WF(g1) && "center_type" in g1.cells
    ensures var r := Finish(g1);
      && r.columns == g1.columns + (if "district" in g1.cells then [] else ["district"]) + (if "state" in g1.cells then [] else ["state"])
      && (forall c :: c in r.cells <==> c in g1.cells || c == "district" || c == "state")
  {
    var g2 := WithDefault(g1, "district", "Unknown District");
    var g3 := WithDefault(g2, "state", "Unknown State");
    assert Finish(g1).cells.Keys == g3.cells.Keys;
  }

  /** What the steps after the center type do to the cells of each column. */
  lemma FinishCells(g1: Frame)
    requires WF(g1) && "center_type" in g1.cells
    ensures var r := Finish(g1);
      && r.cells["center_type"] == NormalizedTypes(g1.cells["center_type"])
      && ("pincode" in g1.cells ==> r.cells["pincode"] == AsText(g1.cells["pincode"]))
      && ("district" !in g1.cells ==> r.cells["district"] == Fill(g1, Text("Unknown District")))
      && ("state" !in g1.cells ==> r.cells["state"] == Fill(g1, Text("Unknown State")))
      && (forall d :: d in g1.cells && d != "pincode" && d != "center_type" ==> r.cells[d] == g1.cells[d])
  {
    var g2 := WithDefault(g1, "district", "Unknown District");
    var g3 := WithDefault(g2, "state", "Unknown State");
    var g4 := WithTextPincodes(g3);
    assert Finish(g1) == WithCanonicalTypes(g4);
  }

  /** Issues fixed in those steps: each default column, and any invalid center type. */
  function FinishFixes(g1: Frame): nat
    requires WF(g1) && "center_type" in g1.cells
  {
    (if "district" in g1.cells then 0 else 1)
    + (if "state" in g1.cells then 0 else 1)
    + (if AnyInvalidType(Column(g1, "center_type")) then 1 else 0)
  }

  /** Issues fixed by renaming. */
  function RenameFixes(f: Frame): nat
    requires WF(f)
  {
    if !AllRequired(f) then RenameCount(f, ColumnSynonyms) else 0
  }

  // ---------------------------------------------------------------- the whole repair

  /** The repaired frame and the number of issues fixed. */
  datatype Reconciled = Reconciled(frame: Frame, fixed: nat)

  /** The final check: a frame still lacking a required column is refused. */
  function Conclude(out: Frame, fixed: nat): (r: Result<Reconciled, Error>)
    ensures r.Ok? <==> AllRequired(out)
    ensures r.Ok? ==> r.value == Reconciled(out, fixed)
    ensures r.Err? ==> r.error == MissingColumns(MissingRequired(out))
  {
    if !AllRequired(out) then Err(MissingColumns(MissingRequired(out))) else Ok(Reconciled(out, fixed))
  }

  /** The frame after steps 1 to 4 and the issues fixed, or the exception the steps raise. */
  function Repair(f: Frame): (r: Result<Reconciled, Error>)
    requires WF(f)
    ensures r.Ok? ==> WF(r.value.frame) && r.value.frame.height == f.height
    ensures r.Err? ==> r.error.TypeError? || r.error.MissingColumns?
  {
    Complete(Renamed(f), RenameFixes(f))
  }

  /** Steps 2 to 4 and the final check on the renamed frame `g`, `fixed` issues having been fixed so far. */
  function Complete(g: Frame, fixed: nat): (r: Result<Reconciled, Error>)
    requires WF(g)
    ensures r.Ok? ==> WF(r.value.frame) && r.value.frame.height == g.height
    ensures r.Err? ==> r.error.TypeError? || r.error.MissingColumns?
  {
    var typed := WithCenterType(g);
    if typed.Err? then Err(typed.error)
    else Conclude(Finish(typed.value), fixed + (if "center_type" in g.cells then 0 else 1) + FinishFixes(typed.value))
  }

  /** Step 1's loop as the source performs it: renaming in place one synonym at a time, counting renames. */
  method RenameAll(f: Frame, m: seq<(string, string)>) returns (df: Frame, fixed: nat)
    requires WF(f)
    ensures df == ApplyRenames(f, m) && fixed == RenameCount(f, m)
  {
    df := f;
    fixed := 0;
    var i := 0;
    while i < |m|
      invariant 0 <= i <= |m|
      invariant df == ApplyRenames(f, m[..i])
      invariant fixed == RenameCount(f, m[..i])
    {
      assert m[..i + 1][..i] == m[..i];
      var (src, dst) := m[i];
      if src in df.cells && dst !in df.cells {
        df := Rename(df, src, dst);
        fixed := fixed + 1;
      }
      i := i + 1;
    }
    assert m[..i] == m;
  }

  /** The whole repair as the source performs it, reassigning the frame step by step. */
  method ValidateAndFixColumns(f: Frame) returns (r: Result<Reconciled, Error>)
    requires WF(f)
    ensures r == Repair(f)
  {
    var df, fixed := RenameIfMissing(f);
    r := Complete(df, fixed);
  }

  /** Step 1: the synonym renames, tried only when a required column is missing. */
  method RenameIfMissing(f: Frame) returns (df: Frame, fixed: nat)
    requires WF(f)
    ensures df == Renamed(f) && fixed == RenameFixes(f)
  {
    var missing := MissingRequired(f);
    if |missing| > 0 {
      df, fixed := RenameAll(f, ColumnSynonyms);
    } else {
      df, fixed := f, 0;
    }
  }

  // ---------------------------------------------------------------- properties

  /** When the center type step fails, the repair fails with its error. */
  lemma RepairError(f: Frame)
    requires WF(f) && WithCenterType(Renamed(f)).Err?
    ensures Repair(f) == Err(WithCenterType(Renamed(f)).error)
  {
  }

  /** Otherwise the repair is the final check on the finished frame, with the fixes of every step. */
  lemma RepairOk(f: Frame, g1: Frame)
    requires WF(f) && WithCenterType(Renamed(f)) == Ok(g1)
    ensures Repair(f) == Conclude(Finish(g1), RenameFixes(f) + (if "center_type" in Renamed(f).cells then 0 else 1) + FinishFixes(g1))
  {
    CompleteOk(Renamed(f), RenameFixes(f), g1);
  }

  lemma CompleteOk(g: Frame, fixed: nat, g1: Frame)
    requires WF(g) && WithCenterType(g) == Ok(g1)
    ensures Complete(g, fixed) == Conclude(Finish(g1), fixed + (if "center_type" in g.cells then 0 else 1) + FinishFixes(g1))
  {
  }

  /** A repaired frame has every required column, text PIN codes and only canonical center types. */
  lemma ReconciledShape(f: Frame)
    requires WF(f) && Repair(f).Ok?
    ensures var g := Repair(f).value.frame;
      && WF(g) && g.height == f.height
      && AllRequired(g)
      && (forall i :: 0 <= i < g.height ==> ValidType(Column(g, "center_type")[i]))
      && (forall i :: 0 <= i < g.height ==> Column(g, "pincode")[i].Text?)
  {
    var g1 := WithCenterType(Renamed(f)).value;
    RepairOk(f, g1);
    FinishColumns(g1);
    FinishShape(g1);
  }

  /** The last steps leave only canonical center types and text PIN codes. */
  lemma FinishShape(g1: Frame)
    requires WF(g1) && "center_type" in g1.cells && "pincode" in g1.cells
    ensures forall i :: 0 <= i < g1.height ==>
      ValidType(Finish(g1).cells["center_type"][i]) && Finish(g1).cells["pincode"][i].Text?
  {
    FinishCells(g1);
    NormalizedTypesAt(g1.cells["center_type"]);
    AsTextAt(g1.cells["pincode"]);
  }

  /** Listed spellings map to their canonical type, canonical types stay, everything else becomes Urban. */
  lemma NormalizedTypeCases(c: Cell)
    ensures c.Text? && Spelling(c.s).Some? ==> NormalizedType(c) == Text(Spelling(c.s).value)
    ensures ValidType(c) ==> NormalizedType(c) == c
    ensures !ValidType(c) && !(c.Text? && Spelling(c.s).Some?) ==> NormalizedType(c) == Text("Urban")
  {
  }

  /**
   * Without a center type column (after renaming), each row's type is inferred from its own
   * footfall: above 150 Urban, below 100 Rural, otherwise Semi-Urban.
   */
  lemma InferredCenterTypes(f: Frame)
    requires WF(f) && Repair(f).Ok?
    requires "center_type" !in Renamed(f).cells
    ensures "footfall" in Renamed(f).cells
    ensures var g := Renamed(f); var out := Repair(f).value.frame;
      forall i :: 0 <= i < out.height ==>
        Column(g, "footfall")[i].Num? && Column(out, "center_type")[i] == Text(TypeFromFootfall(Column(g, "footfall")[i].i))
  {
    var g := Renamed(f);
    var g1 := WithCenterType(g).value;
    RepairOk(f, g1);
    FinishRequired(g1);
    CenterTypeColumns(g);
    var ff := g.cells["footfall"];
    assert g1.cells["center_type"] == InferredTypes(ff);
    FinishCells(g1);
    InferredThenNormalized(ff);
  }

  /** Normalising inferred types keeps them: each row's type is the one its footfall suggests. */
  lemma InferredThenNormalized(ff: seq<Cell>)
    requires AllNumbers(ff)
    ensures forall i :: 0 <= i < |ff| ==> NormalizedTypes(InferredTypes(ff))[i] == Text(TypeFromFootfall(ff[i].i))
  {
    InferredTypesAt(ff);
    NormalizedTypesAt(InferredTypes(ff));
    forall i | 0 <= i < |ff| ensures NormalizedTypes(InferredTypes(ff))[i] == Text(TypeFromFootfall(ff[i].i)) {
      CanonicalIsNormal(TypeFromFootfall(ff[i].i));
    }
  }

  /** A canonical type is left as it is by the normalisation. */
  lemma CanonicalIsNormal(t: string)
    requires Canonical(t)
    ensures NormalizedType(Text(t)) == Text(t)
  {
  }

  /** Without a footfall column either, every inferred type is Urban. */
  lemma DefaultCenterType(g: Frame)
    requires WF(g) && "center_type" !in g.cells && "footfall" !in g.cells
    ensures WithCenterType(g).Ok?
    ensures forall i :: 0 <= i < g.height ==> Column(WithCenterType(g).value, "center_type")[i] == Text("Urban")
  {
    assert WithCenterType(g).value.cells["center_type"] == Fill(g, Text("Urban"));
    RepeatAt(Text("Urban"), g.height);
  }

  /** A district or state column missing after renaming is filled with its default name. */
  lemma DefaultDistrictAndState(f: Frame)
    requires WF(f) && Repair(f).Ok?
    ensures var g := Renamed(f); var out := Repair(f).value.frame;
      && ("district" !in g.cells ==> forall i :: 0 <= i < out.height ==> Column(out, "district")[i] == Text("Unknown District"))
      && ("state" !in g.cells ==> forall i :: 0 <= i < out.height ==> Column(out, "state")[i] == Text("Unknown State"))
  {
    var g1 := WithCenterType(Renamed(f)).value;
    RepairOk(f, g1);
    CenterTypeColumns(Renamed(f));
    FinishColumns(g1);
    FinishCells(g1);
    RepeatAt(Text("Unknown District"), g1.height);
    RepeatAt(Text("Unknown State"), g1.height);
  }

  /** With every required column present nothing is renamed: the column names are kept as they are. */
  lemma NoRenameWhenComplete(f: Frame)
    requires WF(f) && AllRequired(f)
    ensures Renamed(f) == f
    ensures Repair(f).Ok? && Repair(f).value.frame.columns == f.columns
  {
    assert WithCenterType(f) == Ok(f);
    RepairOk(f, f);
    FinishColumns(f);
  }

  /**
   * Renaming never touches a required column that is present: its cells come through unchanged
   * (no synonym is itself a required name, except `center_type`, whose rename is never applicable).
   */
  lemma {:induction false} RenamesKeepRequired(f: Frame, n: nat)
    requires WF(f) && n <= |ColumnSynonyms|
    ensures forall c :: c in Required && c in f.cells ==>
      c in ApplyRenames(f, ColumnSynonyms[..n]).cells && Column(ApplyRenames(f, ColumnSynonyms[..n]), c) == Column(f, c)
  {
    if n > 0 {
      RenamesKeepRequired(f, n - 1);
      assert ColumnSynonyms[..n][..n - 1] == ColumnSynonyms[..n - 1];
      var h := ApplyRenames(f, ColumnSynonyms[..n - 1]);
      var p := ColumnSynonyms[n - 1];
      assert ApplyRenames(f, ColumnSynonyms[..n]) == RenameStep(h, p);
      SynonymsOfRequired(n - 1);
      forall c | c in Required && c in h.cells ensures c in RenameStep(h, p).cells && Column(RenameStep(h, p), c) == Column(h, c) {
        RenameStepKeeps(h, p, c);
      }
    }
  }

  /** A rename step keeps every column other than its source, and the source too when the step does not apply. */
  lemma RenameStepKeeps(h: Frame, p: (string, string), c: string)
    requires WF(h) && c in h.cells && (c != p.0 || !Applies(h, p))
    ensures c in RenameStep(h, p).cells && Column(RenameStep(h, p), c) == Column(h, c)
  {
  }

  /** The only synonym that is itself a required name is `center_type`, which maps onto itself. */
  lemma SynonymsOfRequired(k: nat)
    requires k < |ColumnSynonyms|
    ensures ColumnSynonyms[k].0 in Required ==> ColumnSynonyms[k].0 == ColumnSynonyms[k].1
  {
  }

  /** The repair fails exactly when date, PIN code or footfall is still missing, or an inferred type meets a non-number. */
  lemma ReconcileErrors(f: Frame)
    requires WF(f)
    ensures var g := Renamed(f);
      Repair(f).Err? <==>
        || "date" !in g.cells || "pincode" !in g.cells || "footfall" !in g.cells
        || ("center_type" !in g.cells && !AllNumbers(Column(g, "footfall")))
  {
    var g := Renamed(f);
    if WithCenterType(g).Ok? {
      var g1 := WithCenterType(g).value;
      RepairOk(f, g1);
      CenterTypeColumns(g);
      FinishRequired(g1);
    }
  }

  /** Only date, PIN code and footfall can be reported missing: the other required columns are always supplied. */
  lemma MissingOnlyCore(f: Frame)
    requires WF(f) && Repair(f).Err? && Repair(f).error.MissingColumns?
    ensures forall c :: c in Repair(f).error.columns ==> c == "date" || c == "pincode" || c == "footfall"
  {
    var g := Renamed(f);
    if WithCenterType(g).Err? {
      RepairError(f);
      assert false;
    }
    var g1 := WithCenterType(g).value;
    RepairOk(f, g1);
    var out := Finish(g1);
    assert Repair(f).error.columns == Absent(Required, out);
    FinishRequired(g1);
    MissingRequiredMembers(out);
  }

  /** The center type step adds `center_type` and keeps every other column. */
  lemma CenterTypeColumns(g: Frame)
    requires WF(g) && WithCenterType(g).Ok?
    ensures forall c :: c in WithCenterType(g).value.cells <==> c in g.cells || c == "center_type"
    ensures forall c :: c in g.cells && c != "center_type" ==> WithCenterType(g).value.cells[c] == g.cells[c]
  {
  }

  /** After the last steps the defaulted columns are present; the frame is complete iff date, PIN code and footfall are. */
  lemma FinishRequired(g1: Frame)
    requires WF(g1) && "center_type" in g1.cells
    ensures var out := Finish(g1);
      && "district" in out.cells && "state" in out.cells && "center_type" in out.cells
      && (AllRequired(out) <==> "date" in g1.cells && "pincode" in g1.cells && "footfall" in g1.cells)
  {
    FinishColumns(g1);
  }

  /** Repairing a repaired frame changes nothing and fixes nothing. */
  lemma ReconcileIdempotent(f: Frame)
    requires WF(f) && Repair(f).Ok?
    ensures var g := Repair(f).value.frame;
      Repair(g) == Ok(Reconciled(g, 0))
  {
    ReconciledShape(f);
    RepairOfRepaired(Repair(f).value.frame);
  }

  /** A complete frame with text PIN codes and canonical types is repaired to itself with no fixes. */
  lemma RepairOfRepaired(out: Frame)
    requires WF(out) && AllRequired(out)
    requires forall i :: 0 <= i < out.height ==> ValidType(Column(out, "center_type")[i])
    requires forall i :: 0 <= i < out.height ==> Column(out, "pincode")[i].Text?
    ensures Repair(out) == Ok(Reconciled(out, 0))
  {
    NoRenameWhenComplete(out);
    assert WithCenterType(out) == Ok(out);
    RepairOk(out, out);
    FinishOfRepaired(out);
  }

  /** On a frame with every required column, text PIN codes and canonical types, the last steps change and fix nothing. */
  lemma FinishOfRepaired(out: Frame)
    requires WF(out) && AllRequired(out)
    requires forall i :: 0 <= i < out.height ==> ValidType(out.cells["center_type"][i])
    requires forall i :: 0 <= i < out.height ==> out.cells["pincode"][i].Text?
    ensures Finish(out) == out && FinishFixes(out) == 0
  {
    var g3 := WithDefault(WithDefault(out, "district", "Unknown District"), "state", "Unknown State");
    assert g3 == out;
    TextPincodesKept(out);
    CanonicalTypesKept(out);
    NoFixesWhenRepaired(out);
  }

  lemma NoFixesWhenRepaired(out: Frame)
    requires WF(out) && AllRequired(out)
    requires forall i :: 0 <= i < out.height ==> ValidType(out.cells["center_type"][i])
    ensures FinishFixes(out) == 0
  {
    AnyInvalidTypeAt(out.cells["center_type"]);
  }

  /** PIN codes that are already text are left as they are. */
  lemma TextPincodesKept(g: Frame)
    requires WF(g) && "pincode" in g.cells
    requires forall i :: 0 <= i < g.height ==> g.cells["pincode"][i].Text?
    ensures WithTextPincodes(g) == g
  {
    var pins := g.cells["pincode"];
    AsTextOfText(pins);
    assert g.cells["pincode" := pins] == g.cells;
  }

  /** Canonical center types are left as they are. */
  lemma CanonicalTypesKept(g: Frame)
    requires WF(g) && "center_type" in g.cells
    requires forall i :: 0 <= i < g.height ==> ValidType(g.cells["center_type"][i])
    ensures WithCanonicalTypes(g) == g
  {
    var ct := g.cells["center_type"];
    NormalizedTypesAt(ct);
    forall i | 0 <= i < |ct| ensures NormalizedTypes(ct)[i] == ct[i] {
      CanonicalIsNormal(ct[i].s);
    }
    assert NormalizedTypes(ct) == ct;
    assert g.cells["center_type" := ct] == g.cells;
  }
}
