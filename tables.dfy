/** pandas DataFrames as the core uses them: a sequence of rows, each a map from
    column name to an optional cell (None is NaN, None or NaT), with the column order
    kept beside it. `Table` is a frame as a value; `DataFrame` is a frame the code
    updates in place (`df[col] = ...`, `inplace=True`). */
module Tables {
  import opened Wrappers
  import opened Calendar

  /** A cell: text, an integer, a boolean, or a timestamp at midnight. */
  datatype Cell = Str(s: string) | Int(i: int) | Bool(b: bool) | Stamp(date: Date)

  /** A cell that may be missing. */
  type Value = Option<Cell>

  type Row = map<string, Value>

  datatype Table = Table(columns: seq<string>, rows: seq<Row>)

  /** What pandas raises: `KeyError` for a missing column, `ValueError` for a cell
      `to_datetime` cannot read, `IndexError` for a choice column without a label, and
      `ValueError` for an `apply` result that pandas cannot shape into the series or
      the column it builds, and for a frame assigned to a column it does not fit. `MissingColumn` also stands for attribute access (`df.rghc`),
      where Python raises `AttributeError` rather than `KeyError`; the model does not
      tell the two apart. */
  datatype TableError =
    | MissingColumn(column: string)
    | UnreadableDate(value: Value)
    | NoChoiceLabel(column: string)
    | ShapeMismatch(column: string)

  /** `row[c]`, with a key the row does not hold read as missing. */
  function Get(r: Row, c: string): Value
  {
    if c in r then r[c] else None
  }

  /** Distinct column names, and every row holding exactly the frame's columns. */
  predicate WellFormed(t: Table)
  {
    (forall i, j :: 0 <= i < j < |t.columns| ==> t.columns[i] != t.columns[j])
    && forall i :: 0 <= i < |t.rows| ==> t.rows[i].Keys == set c | c in t.columns
  }

  /** The distinct non-missing values of `col`: the groups `groupby(col)` forms
      (missing keys are dropped). */
  function Ids(t: Table, col: string): set<Cell>
  {
    set i | 0 <= i < |t.rows| && Get(t.rows[i], col).Some? :: Get(t.rows[i], col).value
  }

  /** `df[name] = values`: an existing column keeps its place, a new one is added last. */
  function WithColumn(t: Table, name: string, values: seq<Value>): (r: Table)
    requires |values| == |t.rows|
    ensures |r.rows| == |t.rows|
    ensures forall i, c :: 0 <= i < |t.rows| ==> Get(r.rows[i], c) == if c == name then values[i] else Get(t.rows[i], c)
    ensures name in t.columns ==> r.columns == t.columns
    ensures name !in t.columns ==> r.columns == t.columns + [name]
    ensures WellFormed(t) ==> WellFormed(r)
  {
    var cols := if name in t.columns then t.columns else t.columns + [name];
    var rows := seq(|t.rows|, i requires 0 <= i < |t.rows| => t.rows[i][name := values[i]]);
    Table(cols, rows)
  }

  /** The rows that satisfy `keep`, in their order: boolean indexing `df[mask]`. */
  function FilterRows(rows: seq<Row>, keep: Row -> bool): (r: seq<Row>)
    ensures |r| <= |rows|
    ensures forall x :: x in r <==> x in rows && keep(x)
  {
    if |rows| == 0 then []
    else
      var rest := FilterRows(rows[1..], keep);
      assert forall x :: x in rows <==> x == rows[0] || x in rows[1..];
      if keep(rows[0]) then [rows[0]] + rest else rest
  }

  /** Filtering keeps the relative order: filtering a concatenation is concatenating
      the filtered parts. */
  lemma {:induction false} FilterRowsAppend(a: seq<Row>, b: seq<Row>, keep: Row -> bool)
    ensures FilterRows(a + b, keep) == FilterRows(a, keep) + FilterRows(b, keep)
  {
    if |a| == 0 {
      assert a + b == b;
    } else {
      assert (a + b)[0] == a[0] && (a + b)[1..] == a[1..] + b;
      FilterRowsAppend(a[1..], b, keep);
    }
  }

  function Filter(t: Table, keep: Row -> bool): (r: Table)
    ensures r.columns == t.columns && r.rows == FilterRows(t.rows, keep)
    ensures WellFormed(t) ==> WellFormed(r)
  {
    var r := Table(t.columns, FilterRows(t.rows, keep));
    assert forall i :: 0 <= i < |r.rows| ==> r.rows[i] in t.rows;
    r
  }

  /** The first of `cols` the frame lacks. */
  function FirstMissing(t: Table, cols: seq<string>): (m: Option<string>)
    ensures m.None? <==> forall c :: c in cols ==> c in t.columns
    ensures m.Some? ==> m.value in cols && m.value !in t.columns
  {
    if |cols| == 0 then None
    else if cols[0] !in t.columns then Some(cols[0])
    else FirstMissing(t, cols[1..])
  }

  /** `df[cols]`: KeyError when a column is missing; otherwise the rows restricted to `cols`. */
  function Project(t: Table, cols: seq<string>): (r: Result<Table, TableError>)
    ensures r.Err? <==> exists c :: c in cols && c !in t.columns
    ensures r.Err? ==> r.error.MissingColumn? && r.error.column in cols && r.error.column !in t.columns
    ensures r.Ok? ==> r.value.columns == cols && |r.value.rows| == |t.rows|
    ensures r.Ok? ==> forall i, c :: 0 <= i < |t.rows| ==> Get(r.value.rows[i], c) == if c in cols then Get(t.rows[i], c) else None
  {
    match FirstMissing(t, cols)
    case Some(c) => Err(MissingColumn(c))
    case None =>
      Ok(Table(cols, seq(|t.rows|, i requires 0 <= i < |t.rows| => map c | c in cols :: Get(t.rows[i], c))))
  }

  /** `df.at[i, name] = v`: a new column is added last, with every other row missing. */
  function WithCell(t: Table, i: nat, name: string, v: Value): (r: Table)
    requires i < |t.rows|
    ensures |r.rows| == |t.rows|
    ensures forall j, c :: 0 <= j < |t.rows| ==> Get(r.rows[j], c) == if j == i && c == name then v else Get(t.rows[j], c)
    ensures r.columns == if name in t.columns then t.columns else t.columns + [name]
  {
    Table(if name in t.columns then t.columns else t.columns + [name], t.rows[i := t.rows[i][name := v]])
  }

  /** The name `rename(columns=m)` gives column `c`. */
  function RenameName(m: map<string, string>, c: string): string
  {
    if c in m then m[c] else c
  }

  /** Renaming gives no two columns the same name; pandas would then hold two
      columns of one name, which a row map cannot. */
  predicate RenameKeepsDistinct(cols: seq<string>, m: map<string, string>)
  {
    forall i, j :: 0 <= i < j < |cols| ==> RenameName(m, cols[i]) != RenameName(m, cols[j])
  }

  /** The first column renamed to `k`. */
  function Origin(cols: seq<string>, m: map<string, string>, k: string): (o: Option<string>)
    ensures o.Some? ==> o.value in cols && RenameName(m, o.value) == k
    ensures o.None? ==> forall c :: c in cols ==> RenameName(m, c) != k
    ensures RenameKeepsDistinct(cols, m) ==> forall c :: c in cols && RenameName(m, c) == k ==> o == Some(c)
  {
    if |cols| == 0 then None
    else if RenameName(m, cols[0]) == k then Some(cols[0])
    else
      assert RenameKeepsDistinct(cols, m) ==> RenameKeepsDistinct(cols[1..], m) by {
        if RenameKeepsDistinct(cols, m) {
          forall i, j | 0 <= i < j < |cols| - 1 ensures RenameName(m, cols[1..][i]) != RenameName(m, cols[1..][j]) {
            assert cols[1..][i] == cols[i + 1] && cols[1..][j] == cols[j + 1];
          }
        }
      }
      assert forall c :: c in cols <==> c == cols[0] || c in cols[1..];
      Origin(cols[1..], m, k)
  }

  /** The column list after renaming: the same places, the new names. */
  function RenamedColumns(cols: seq<string>, m: map<string, string>): (r: seq<string>)
    ensures |r| == |cols| && forall i :: 0 <= i < |cols| ==> r[i] == RenameName(m, cols[i])
    ensures forall k :: k in r <==> exists c :: c in cols && RenameName(m, c) == k
  {
    var r := seq(|cols|, i requires 0 <= i < |cols| => RenameName(m, cols[i]));
    assert forall k :: k in r <==> exists c :: c in cols && RenameName(m, c) == k by {
      forall k | k in r ensures exists c :: c in cols && RenameName(m, c) == k {
        var i :| 0 <= i < |r| && r[i] == k;
        assert cols[i] in cols;
      }
      forall k | exists c :: c in cols && RenameName(m, c) == k ensures k in r {
        var c :| c in cols && RenameName(m, c) == k;
        var i :| 0 <= i < |cols| && cols[i] == c;
        assert r[i] == k;
      }
    }
    r
  }

  /** One row after renaming: each new name holds the cell of the first column
      renamed to it. */
  function RenamedRow(row: Row, cols: seq<string>, m: map<string, string>, names: set<string>): (r: Row)
    ensures r.Keys == names
    ensures forall k :: k in names ==> r[k] == match Origin(cols, m, k) case Some(c) => Get(row, c) case None => None
  {
    map k | k in names :: match Origin(cols, m, k) case Some(c) => Get(row, c) case None => None
  }

  /** `df.rename(columns=m)`: each column takes its new name and keeps its place and
      its cells. */
  function Renamed(t: Table, m: map<string, string>): (r: Table)
    ensures |r.columns| == |t.columns| && |r.rows| == |t.rows|
    ensures forall i :: 0 <= i < |t.columns| ==> r.columns[i] == RenameName(m, t.columns[i])
    ensures RenameKeepsDistinct(t.columns, m) ==>
      forall i, c :: 0 <= i < |t.rows| && c in t.columns ==> Get(r.rows[i], RenameName(m, c)) == Get(t.rows[i], c)
    ensures forall i, k :: 0 <= i < |t.rows| && k !in r.columns ==> Get(r.rows[i], k) == None
    ensures WellFormed(t) && RenameKeepsDistinct(t.columns, m) ==> WellFormed(r)
  {
    var cols := RenamedColumns(t.columns, m);
    var names := set k | k in cols;
    Table(cols, seq(|t.rows|, i requires 0 <= i < |t.rows| => RenamedRow(t.rows[i], t.columns, m, names)))
  }

  /** `df.replace(m)`: every cell equal to a key of `m` becomes its value. */
  function ReplaceValue(m: map<Cell, Cell>, v: Value): Value
  {
    if v.Some? && v.value in m then Some(m[v.value]) else v
  }

  function Replaced(t: Table, m: map<Cell, Cell>): (r: Table)
    ensures r.columns == t.columns && |r.rows| == |t.rows|
    ensures forall i, c :: 0 <= i < |t.rows| ==> Get(r.rows[i], c) == ReplaceValue(m, Get(t.rows[i], c))
    ensures WellFormed(t) ==> WellFormed(r)
  {
    Table(t.columns, seq(|t.rows|, i requires 0 <= i < |t.rows| => map c | c in t.rows[i] :: ReplaceValue(m, t.rows[i][c])))
  }

  /** A frame the code changes in place. */
  class DataFrame {
    var columns: seq<string>
    var rows: seq<Row>

    constructor (t: Table)
      ensures columns == t.columns && rows == t.rows
    {
      columns := t.columns;
      rows := t.rows;
    }

    /** The frame's current contents. */
    function Snapshot(): Table
      reads this
    {
      Table(columns, rows)
    }

    /** `df[name] = values`. */
    method SetColumn(name: string, values: seq<Value>)
      requires |values| == |rows|
      modifies this
      ensures Snapshot() == WithColumn(old(Snapshot()), name, values)
    {
      var t := WithColumn(Snapshot(), name, values);
      columns, rows := t.columns, t.rows;
    }

    /** `df.at[i, name] = v`. */
    method SetCell(i: nat, name: string, v: Value)
      requires i < |rows|
      modifies this
      ensures Snapshot() == WithCell(old(Snapshot()), i, name, v)
    {
      var t := WithCell(Snapshot(), i, name, v);
      columns, rows := t.columns, t.rows;
    }

    /** `df.rename(columns=m, inplace=True)`. */
    method Rename(m: map<string, string>)
      modifies this
      ensures Snapshot() == Renamed(old(Snapshot()), m)
    {
      var t := Renamed(Snapshot(), m);
      columns, rows := t.columns, t.rows;
    }

    /** `df.replace(m, inplace=True)`. */
    method Replace(m: map<Cell, Cell>)
      modifies this
      ensures Snapshot() == Replaced(old(Snapshot()), m)
    {
      var t := Replaced(Snapshot(), m);
      columns, rows := t.columns, t.rows;
    }
  }
}
