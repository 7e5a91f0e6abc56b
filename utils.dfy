/** The REDCap checkbox decoder (src/utils.py): a multiple-choice question is
    exported as one column per choice, named `<question> (choice=<label>)`; the
    decoder casts those columns to booleans and writes each row's ticked labels,
    joined with ", ", into one target column. */
module Utils {
  import opened Wrappers
  import opened Text
  import opened Tables

  predicate StartsWith(s: string, prefix: string)
  {
    |prefix| <= |s| && s[..|prefix|] == prefix
  }

  /** The columns whose name starts with `prefix`, in the frame's column order. */
  function DrugColumns(columns: seq<string>, prefix: string): (cols: seq<string>)
    ensures |cols| <= |columns|
    ensures forall c :: c in cols <==> c in columns && StartsWith(c, prefix)
  {
    if |columns| == 0 then []
    else
      var rest := DrugColumns(columns[1..], prefix);
      assert forall c :: c in columns <==> c == columns[0] || c in columns[1..];
      if StartsWith(columns[0], prefix) then [columns[0]] + rest else rest
  }

  /** The selection keeps the column order: selecting from a concatenation is
      concatenating the selections. */
  lemma {:induction false} DrugColumnsAppend(a: seq<string>, b: seq<string>, prefix: string)
    ensures DrugColumns(a + b, prefix) == DrugColumns(a, prefix) + DrugColumns(b, prefix)
  {
    if |a| == 0 {
      assert a + b == b;
    } else {
      assert (a + b)[0] == a[0] && (a + b)[1..] == a[1..] + b;
      DrugColumnsAppend(a[1..], b, prefix);
    }
  }

  /** `fillna(False).astype(bool)` on one cell: a missing cell is False, text is true
      when not empty, a number when not zero. */
  function Truthy(v: Value): (b: bool)
    ensures v.None? ==> !b
    ensures v.Some? && v.value.Bool? ==> b == v.value.b
  {
    match v
    case None => false
    case Some(Str(s)) => |s| > 0
    case Some(Int(i)) => i != 0
    case Some(Bool(b)) => b
    case Some(Stamp(_)) => true
  }

  const ChoiceMarker: string := "(choice="

  /** `col.split("(choice=")[1].rstrip(")")`: the text after the first marker, up to a
      second marker if there is one, without its trailing ')'. None when the name holds
      no marker, where indexing the one-piece split raises IndexError. */
  function ChoiceLabel(col: string): (r: Option<string>)
    ensures r.Some? ==> |r.value| == 0 || r.value[|r.value| - 1] != ')'
  {
    match Find(col, ChoiceMarker)
    case None => None
    case Some(i) =>
      var start := i + |ChoiceMarker|;
      var piece := match FindFrom(col, ChoiceMarker, start)
        case None => col[start..]
        case Some(j) => col[start..j];
      Some(RStrip(piece, ')'))
  }

  /** A column has no label exactly when its name holds no marker. */
  lemma NoLabelIffNoMarker(col: string)
    ensures ChoiceLabel(col).None? <==> forall k :: 0 <= k <= |col| ==> !OccursAt(col, ChoiceMarker, k)
  {
    match Find(col, ChoiceMarker)
    case None =>
    case Some(i) => assert OccursAt(col, ChoiceMarker, i);
  }

  /** No occurrence of the marker starts at a character other than '('. */
  lemma NoMarkerAt(s: string, k: nat)
    requires k < |s| ==> s[k] != '('
    ensures !OccursAt(s, ChoiceMarker, k)
  {
  }

  /** A column named the way REDCap names a choice gives back that choice's label. */
  lemma ChoiceLabelOfChoiceColumn(question: string, choice: string)
    requires '(' !in question && '(' !in choice
    requires |choice| == 0 || choice[|choice| - 1] != ')'
    ensures ChoiceLabel(question + ChoiceMarker + choice + ")") == Some(choice)
  {
    var tail := choice + ")";
    var col := question + ChoiceMarker + choice + ")";
    var start := |question| + |ChoiceMarker|;
    assert col == question + (ChoiceMarker + tail);
    forall k | 0 <= k < |question| ensures !OccursAt(col, ChoiceMarker, k) {
      assert col[k] == question[k];
      NoMarkerAt(col, k);
    }
    assert col[|question|..start] == ChoiceMarker;
    assert OccursAt(col, ChoiceMarker, |question|);
    var found := Find(col, ChoiceMarker);
    assert found.Some?;
    assert found.value == |question|;
    assert col[start..] == tail;
    forall k | start <= k <= |col| ensures !OccursAt(col, ChoiceMarker, k) {
      if k < |col| {
        assert col[k] == tail[k - start];
      }
      NoMarkerAt(col, k);
    }
    assert FindFrom(col, ChoiceMarker, start) == None;
    assert tail[..|tail| - 1] == choice;
    assert RStrip(tail, ')') == RStrip(choice, ')') == choice;
  }

  /** Every trailing ')' goes: a label that ends in a parenthesis loses it too. */
  lemma ChoiceLabelStripsParentheses()
    ensures ChoiceLabel("Q(choice=A))") == Some("A")
  {
    var col := "Q(choice=A))";
    NoMarkerAt(col, 0);
    assert OccursAt(col, ChoiceMarker, 1);
    forall k | 9 <= k <= |col| ensures !OccursAt(col, ChoiceMarker, k) {
      NoMarkerAt(col, k);
    }
    assert col[9..] == "A))";
    assert "A))"[..2] == "A)" && "A)"[..1] == "A";
  }

  /** The labels of a row's ticked columns, in column order; the first ticked column
      without a label raises IndexError. */
  function RowLabels(r: Row, cols: seq<string>): (labels: Result<seq<string>, TableError>)
    ensures labels.Ok? <==> forall c :: c in cols && Truthy(Get(r, c)) ==> ChoiceLabel(c).Some?
    ensures labels.Err? ==> exists c :: c in cols && Truthy(Get(r, c)) && ChoiceLabel(c).None? && labels.error == NoChoiceLabel(c)
    ensures labels.Ok? ==> |labels.value| <= |cols|
    ensures labels.Ok? ==> forall l :: l in labels.value ==> exists c :: c in cols && Truthy(Get(r, c)) && ChoiceLabel(c) == Some(l)
  {
    if |cols| == 0 then Ok([])
    else
      assert forall c :: c in cols <==> c == cols[0] || c in cols[1..];
      var rest := RowLabels(r, cols[1..]);
      if !Truthy(Get(r, cols[0])) then rest
      else match ChoiceLabel(cols[0])
        case None => Err(NoChoiceLabel(cols[0]))
        case Some(l) => if rest.Ok? then Ok([l] + rest.value) else rest
  }

  /** One column's contribution: its label when ticked. */
  lemma RowLabelsCons(r: Row, cols: seq<string>)
    requires |cols| > 0 && RowLabels(r, cols).Ok?
    ensures RowLabels(r, cols[1..]).Ok?
    ensures !Truthy(Get(r, cols[0])) ==> RowLabels(r, cols).value == RowLabels(r, cols[1..]).value
    ensures Truthy(Get(r, cols[0])) ==> (ChoiceLabel(cols[0]).Some?
      && RowLabels(r, cols).value == [ChoiceLabel(cols[0]).value] + RowLabels(r, cols[1..]).value)
  {
  }

  lemma AppendAssociative(a: seq<string>, b: seq<string>, c: seq<string>)
    ensures a + (b + c) == (a + b) + c
  {
    assert |a + (b + c)| == |(a + b) + c|;
    forall i | 0 <= i < |a + (b + c)|
      ensures (a + (b + c))[i] == ((a + b) + c)[i]
    {
      if i < |a| + |b| {
        assert ((a + b) + c)[i] == (a + b)[i];
      }
    }
  }

  /** The step of `RowLabelsAppend`: the first column of `a` contributes alike to
      `a + b` and to `a`. */
  lemma RowLabelsAppendStep(r: Row, a: seq<string>, b: seq<string>)
    requires |a| > 0 && RowLabels(r, a + b).Ok?
    requires RowLabels(r, a[1..]).Ok? && RowLabels(r, b).Ok?
    requires (a + b)[1..] == a[1..] + b
    requires RowLabels(r, a[1..] + b).value == RowLabels(r, a[1..]).value + RowLabels(r, b).value
    ensures RowLabels(r, a).Ok?
    ensures RowLabels(r, a + b).value == RowLabels(r, a).value + RowLabels(r, b).value
  {
    var ab := a + b;
    assert ab[0] == a[0];
    assert forall c :: c in a ==> c in ab;
    RowLabelsCons(r, ab);
    RowLabelsCons(r, a);
    var x, y, z := RowLabels(r, a[1..] + b).value, RowLabels(r, a[1..]).value, RowLabels(r, b).value;
    var l := if Truthy(Get(r, a[0])) then [ChoiceLabel(a[0]).value] else [];
    assert RowLabels(r, ab).value == l + x;
    assert RowLabels(r, a).value == l + y;
    AppendAssociative(l, y, z);
  }

  /** The labels follow the column order. */
  lemma {:induction false} RowLabelsAppend(r: Row, a: seq<string>, b: seq<string>)
    requires RowLabels(r, a + b).Ok?
    ensures RowLabels(r, a).Ok? && RowLabels(r, b).Ok?
    ensures RowLabels(r, a + b).value == RowLabels(r, a).value + RowLabels(r, b).value
  {
    if |a| == 0 {
      assert a + b == b;
      assert RowLabels(r, a) == Ok([]);
    } else {
      assert (a + b)[1..] == a[1..] + b;
      RowLabelsCons(r, a + b);
      RowLabelsAppend(r, a[1..], b);
      RowLabelsAppendStep(r, a, b);
    }
  }

  /** A row with no ticked column gets the empty list, hence "". */
  lemma {:induction false} NothingTickedIsEmpty(r: Row, cols: seq<string>)
    requires forall c :: c in cols ==> !Truthy(Get(r, c))
    ensures RowLabels(r, cols) == Ok([]) && Join(RowLabels(r, cols).value, ", ") == ""
  {
    if |cols| > 0 {
      NothingTickedIsEmpty(r, cols[1..]);
    }
  }

  /** A cell after the boolean cast. */
  function Cast(v: Value): Value
  {
    Some(Bool(Truthy(v)))
  }

  /** `df[cols] = df[cols].fillna(False).astype(bool)`. */
  function CastColumns(t: Table, cols: seq<string>): (r: Table)
    ensures r.columns == t.columns && |r.rows| == |t.rows|
    ensures forall i, c :: 0 <= i < |t.rows| ==> Get(r.rows[i], c) == if c in cols then Cast(Get(t.rows[i], c)) else Get(t.rows[i], c)
  {
    Table(t.columns, seq(|t.rows|, i requires 0 <= i < |t.rows| =>
      map c | c in t.rows[i].Keys + (set c | c in cols) :: if c in cols then Cast(Get(t.rows[i], c)) else t.rows[i][c]))
  }

  /** Casting does not change which columns are ticked, so the labels read on the cast
      frame are the labels of the original cells. */
  lemma {:induction false} CastKeepsLabels(r: Row, cast: Row, cols: seq<string>)
    requires forall c :: c in cols ==> Get(cast, c) == Cast(Get(r, c))
    ensures RowLabels(cast, cols) == RowLabels(r, cols)
  {
    if |cols| > 0 {
      CastKeepsLabels(r, cast, cols[1..]);
    }
  }

  /** The target column's cells: each row's labels joined with ", "; the first row
      that raises stops the apply. */
  function DrugLists(rows: seq<Row>, cols: seq<string>): (r: Result<seq<Value>, TableError>)
    ensures r.Ok? <==> forall i :: 0 <= i < |rows| ==> RowLabels(rows[i], cols).Ok?
    ensures r.Err? ==> exists i :: 0 <= i < |rows| && RowLabels(rows[i], cols) == Err(r.error)
    ensures r.Ok? ==> |r.value| == |rows| && forall i :: 0 <= i < |rows| ==> r.value[i] == Some(Str(Join(RowLabels(rows[i], cols).value, ", ")))
  {
    if |rows| == 0 then Ok([])
    else
      var rest := DrugLists(rows[1..], cols);
      assert forall i :: 1 <= i < |rows| ==> rows[i] == rows[1..][i - 1];
      match RowLabels(rows[0], cols)
      case Err(e) => Err(e)
      case Ok(labels) =>
        if rest.Err? then
          assert exists i :: 0 <= i < |rows| && RowLabels(rows[i], cols) == Err(rest.error) by {
            var j :| 0 <= j < |rows[1..]| && RowLabels(rows[1..][j], cols) == Err(rest.error);
            assert rows[j + 1] == rows[1..][j];
          }
          rest
        else Ok([Some(Str(Join(labels, ", ")))] + rest.value)
  }

  /** `apply(axis=1)` on a frame with no rows or no columns does not call the lambda
      row by row: pandas probes it once on an empty row and builds the result from
      that. That raises ValueError in two cases. With rows but no source column,
      `apply` itself raises: it cannot take the probe's empty list as the values of
      an n-row series. With no rows and two or more source columns of which one has
      no label, the probe raises IndexError (every cell of the probe row is NaN,
      hence ticked), pandas hands back the frame itself, and the assignment of a
      frame of several columns to one column raises. */
  predicate EmptyApplyFails(rows: nat, cols: seq<string>)
  {
    (rows > 0 && |cols| == 0)
    || (rows == 0 && |cols| >= 2 && exists c :: c in cols && ChoiceLabel(c).None?)
  }

  /** `retrieve_drugs(df, source, target)`: the columns starting with `source` become
      booleans; then, unless the apply over an empty axis fails or a ticked column
      has no label, `target` holds each row's ticked labels joined with ", ". The
      cast stays in place even when the assignment raises. */
  method RetrieveDrugs(df: DataFrame, source: string, target: string) returns (err: Option<TableError>)
    modifies df
    ensures (df.Snapshot(), err) == Retrieved(old(df.Snapshot()), source, target)
  {
    var cols := DrugColumns(df.columns, source);
    var cast := CastColumns(df.Snapshot(), cols);
    df.columns, df.rows := cast.columns, cast.rows;
    if EmptyApplyFails(|cast.rows|, cols) {
      return Some(ShapeMismatch(target));
    }
    var lists := DrugLists(cast.rows, cols);
    match lists
    case Err(e) =>
      err := Some(e);
    case Ok(values) =>
      df.SetColumn(target, values);
      err := None;
  }

  /** The frame `retrieve_drugs` leaves, and whether it raised. */
  function Retrieved(t: Table, source: string, target: string): (Table, Option<TableError>)
  {
    var cols := DrugColumns(t.columns, source);
    var cast := CastColumns(t, cols);
    if EmptyApplyFails(|t.rows|, cols) then (cast, Some(ShapeMismatch(target)))
    else match DrugLists(cast.rows, cols)
      case Err(e) => (cast, Some(e))
      case Ok(values) => (WithColumn(cast, target, values), None)
  }

  /** What `retrieve_drugs` promises about the frame it updates: it raises ValueError
      when the apply over an empty axis fails, and otherwise exactly when a ticked
      source column holds no choice label; the source columns hold
      booleans, missing cells False; the target holds each row's ticked labels in
      column order, joined with ", "; and every other column is untouched. */
  lemma RetrievedFrame(t: Table, source: string, target: string)
    ensures var (r, err) := Retrieved(t, source, target);
      var cols := DrugColumns(t.columns, source);
      && (EmptyApplyFails(|t.rows|, cols) ==> err == Some(ShapeMismatch(target)))
      && (!EmptyApplyFails(|t.rows|, cols) ==>
            (err.Some? <==> exists i, c :: 0 <= i < |t.rows| && c in cols && Truthy(Get(t.rows[i], c)) && ChoiceLabel(c).None?))
      && |r.rows| == |t.rows|
      && r.columns == (if err.None? && target !in t.columns then t.columns + [target] else t.columns)
      && (forall i, c :: 0 <= i < |t.rows| && c in cols && (err.Some? || c != target) ==>
            Get(r.rows[i], c) == Some(Bool(Truthy(Get(t.rows[i], c)))))
      && (forall i :: 0 <= i < |t.rows| && err.None? ==>
            Get(r.rows[i], target) == Some(Str(Join(RowLabels(t.rows[i], cols).value, ", "))))
      && (forall i, c :: 0 <= i < |t.rows| && c !in cols && (err.Some? || c != target) ==>
            Get(r.rows[i], c) == Get(t.rows[i], c))
  {
    var cols := DrugColumns(t.columns, source);
    var cast := CastColumns(t, cols);
    forall i | 0 <= i < |t.rows| ensures RowLabels(cast.rows[i], cols) == RowLabels(t.rows[i], cols) {
      CastKeepsLabels(t.rows[i], cast.rows[i], cols);
    }
  }
}
