/**
 * pandas tables as the pipeline sees them: raw frames of CSV cells (column-major), the
 * values of the engineered feature table, and the exceptions the core raises.
 */
module Tables {
  import opened Seqs

  /** A cell read from a CSV file: text, an integer, or a date parsed by `pd.to_datetime` (a day number). */
  datatype Cell = Text(s: string) | Num(i: int) | Day(day: nat)

  /**
   * A value of the feature table or of a prediction vector. `Sqrt(v)` is the square root of
   * `v >= 0` (a standard deviation kept exact), `Infinity` is what a float division by zero
   * gives, and `NaN` is a missing value.
   */
  datatype Value = Number(x: real) | Sqrt(square: real) | Label(s: string) | Stamp(day: nat) | Infinity(negative: bool) | NaN

  /** The exceptions the modelled code raises. */
  datatype Error =
    | KeyError(key: string)
    | MissingColumns(columns: seq<string>)
    | TypeError(what: string)
    | DataError(what: string)
    | ValueError(what: string)
    | IndexError(index: int)

  /** A DataFrame: column names in order, the cells of each column by name, and the row count. */
  datatype Frame = Frame(columns: seq<string>, cells: map<string, seq<Cell>>, height: nat)

  /**
   * Every listed column has its cells, one per row. A name is a column of the frame when it has
   * cells (`c in f.cells` is `c in df.columns`); `columns` gives their order. (pandas also allows
   * two columns with the same name; renaming replaces every occurrence, as `Replaced` does.)
   */
  ghost predicate WF(f: Frame) {
    && (forall c :: c in f.columns ==> c in f.cells)
    && (forall c :: c in f.cells ==> |f.cells[c]| == f.height)
  }

  /** `df[c]`. */
  function Column(f: Frame, c: string): (r: seq<Cell>)
    requires WF(f) && c in f.cells
    ensures |r| == f.height
  {
    f.cells[c]
  }

  /** The column names with `src` renamed to `dst`. */
  function Replaced(cols: seq<string>, src: string, dst: string): (r: seq<string>)
    ensures |r| == |cols|
    ensures forall i :: 0 <= i < |r| ==> r[i] == if cols[i] == src then dst else cols[i]
  {
    if |cols| == 0 then []
    else Replaced(cols[..|cols| - 1], src, dst) + [if cols[|cols| - 1] == src then dst else cols[|cols| - 1]]
  }

  /** Renaming swaps one name for the other in the set of names. */
  lemma ReplacedMembers(cols: seq<string>, src: string, dst: string)
    ensures forall c :: c in Replaced(cols, src, dst) ==> c == dst || (c in cols && c != src)
    ensures forall c :: c in cols && c != src ==> c in Replaced(cols, src, dst)
    ensures src in cols ==> dst in Replaced(cols, src, dst)
  {
    var r := Replaced(cols, src, dst);
    forall c ensures c in r ==> c == dst || (c in cols && c != src) {
      if c in r {
        var i :| 0 <= i < |r| && r[i] == c;
      }
    }
    forall c ensures (c == dst && src in cols) || (c in cols && c != src) ==> c in r {
      if c == dst && src in cols {
        var i :| 0 <= i < |cols| && cols[i] == src;
        assert r[i] == dst;
      }
      if c in cols && c != src {
        var i :| 0 <= i < |cols| && cols[i] == c;
        assert r[i] == c;
      }
    }
  }

  /** `df.rename(columns={src: dst})` onto a name not yet present: the column keeps its place. */
  function Rename(f: Frame, src: string, dst: string): (r: Frame)
    requires WF(f) && src in f.cells && dst !in f.cells
    ensures WF(r) && r.height == f.height
    ensures r.columns == Replaced(f.columns, src, dst)
    ensures r.cells == (f.cells - {src})[dst := f.cells[src]]
  {
    ReplacedMembers(f.columns, src, dst);
    Frame(Replaced(f.columns, src, dst), (f.cells - {src})[dst := f.cells[src]], f.height)
  }

  /** `df[c] = col`: replace the column in place, or append it as the last column. */
  function SetColumn(f: Frame, c: string, col: seq<Cell>): (r: Frame)
    requires WF(f) && |col| == f.height
    ensures WF(r) && r.height == f.height
    ensures r.columns == if c in f.cells then f.columns else f.columns + [c]
    ensures r.cells == f.cells[c := col]
  {
    if c in f.cells then
      f.(cells := f.cells[c := col])
    else
      Frame(f.columns + [c], f.cells[c := col], f.height)
  }

  /** A column of `n` copies of `v`. */
  function Repeat(v: Cell, n: nat): (r: seq<Cell>)
    ensures |r| == n
  {
    if n == 0 then [] else Repeat(v, n - 1) + [v]
  }

  lemma {:induction false} RepeatAt(v: Cell, n: nat)
    ensures forall i :: 0 <= i < n ==> Repeat(v, n)[i] == v
  {
    if n > 0 {
      RepeatAt(v, n - 1);
    }
  }

  /** The cells of `df[c] = v`. */
  function Fill(f: Frame, v: Cell): (r: seq<Cell>)
    ensures |r| == f.height
  {
    Repeat(v, f.height)
  }

  /** The value a CSV cell has in the feature table. */
  function ValueOf(c: Cell): Value {
    match c
    case Text(s) => Label(s)
    case Num(i) => Number(i as real)
    case Day(n) => Stamp(n)
  }
}
