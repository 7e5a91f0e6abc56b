/** The REDCap label extraction (src/redcap_treatment_labels.py): from the REDCap
    export, where each patient's base row is followed by one repeated-instrument row
    per treatment line, build one labelled row per treatment line of the patients
    whose follow-up is up to date. */
module RedcapTreatmentLabels {
  import opened Wrappers
  import opened Tables
  import opened Config
  import Utils

  const RepeatInstrument: string := "Repeat Instrument"
  const TreatmentLine: string := "Linha de Tratamento"
  const Sex: string := "Sexo"
  const FinalOutcome: string := "Desfecho final do paciente"

  /** The export spells the patient id in capitals. */
  const IdRename: map<string, string> := map["RGHC" := PatientId]

  /** Checkbox answers become booleans. */
  const CheckboxAnswers: map<Cell, Cell> := map[Str("Checked") := Bool(true), Str("Unchecked") := Bool(false)]

  /** `row["Repeat Instrument"] == "Linha de Tratamento"`; a missing cell compares unequal. */
  predicate IsTreatmentRow(r: Row)
  {
    Get(r, RepeatInstrument) == Some(Str(TreatmentLine))
  }

  /** The recast turns exactly the two checkbox answers into booleans. */
  lemma RecastCells(t: Table, i: nat, c: string)
    requires i < |t.rows|
    ensures Get(t.rows[i], c) == Some(Str("Checked")) ==> Get(Replaced(t, CheckboxAnswers).rows[i], c) == Some(Bool(true))
    ensures Get(t.rows[i], c) == Some(Str("Unchecked")) ==> Get(Replaced(t, CheckboxAnswers).rows[i], c) == Some(Bool(false))
    ensures Get(t.rows[i], c) != Some(Str("Checked")) && Get(t.rows[i], c) != Some(Str("Unchecked")) ==>
      Get(Replaced(t, CheckboxAnswers).rows[i], c) == Get(t.rows[i], c)
  {
  }

  // ---------------------------------------------------------------------------
  // Carrying the patient id into the treatment-line rows

  /** The value of the loop's `rghc` variable when it reaches row `i`: "" at the
      start, then the id of the last non-treatment row passed. */
  function Carried(rows: seq<Row>, i: nat): Value
    requires i <= |rows|
  {
    if i == 0 then Some(Str(""))
    else if IsTreatmentRow(rows[i - 1]) then Carried(rows, i - 1)
    else Get(rows[i - 1], PatientId)
  }

  /** The carried id is that of the nearest non-treatment row before `i`, or "" when
      only treatment rows precede it. */
  lemma {:induction false} CarriedIsNearestPreceding(rows: seq<Row>, i: nat)
    requires i <= |rows|
    ensures (forall j :: 0 <= j < i ==> IsTreatmentRow(rows[j])) ==> Carried(rows, i) == Some(Str(""))
    ensures forall j :: 0 <= j < i && !IsTreatmentRow(rows[j]) && (forall k :: j < k < i ==> IsTreatmentRow(rows[k])) ==>
      Carried(rows, i) == Get(rows[j], PatientId)
  {
    if i > 0 {
      CarriedIsNearestPreceding(rows, i - 1);
      forall j | 0 <= j < i && !IsTreatmentRow(rows[j]) && (forall k :: j < k < i ==> IsTreatmentRow(rows[k]))
        ensures Carried(rows, i) == Get(rows[j], PatientId)
      {
        if j < i - 1 {
          assert IsTreatmentRow(rows[i - 1]);
          assert Carried(rows, i) == Carried(rows, i - 1);
        }
      }
    }
  }

  /** Row `i` after the loop: a treatment row gets the carried id. */
  function PropagatedRow(rows: seq<Row>, i: nat): Row
    requires i < |rows|
  {
    if IsTreatmentRow(rows[i]) then rows[i][PatientId := Carried(rows, i)] else rows[i]
  }

  /** The columns after the loop has passed `i` rows: writing the id into a frame
      without an id column adds it. */
  function PropagatedColumns(t: Table, i: nat): seq<string>
    requires i <= |t.rows|
  {
    if PatientId in t.columns || forall j :: 0 <= j < i ==> !IsTreatmentRow(t.rows[j]) then t.columns
    else t.columns + [PatientId]
  }

  /** The frame after the loop. */
  function Propagated(t: Table): (r: Table)
    ensures |r.rows| == |t.rows|
    ensures forall i :: 0 <= i < |t.rows| && !IsTreatmentRow(t.rows[i]) ==> r.rows[i] == t.rows[i]
    ensures forall i, c :: 0 <= i < |t.rows| && IsTreatmentRow(t.rows[i]) ==>
      Get(r.rows[i], c) == if c == PatientId then Carried(t.rows, i) else Get(t.rows[i], c)
  {
    Table(PropagatedColumns(t, |t.rows|), seq(|t.rows|, i requires 0 <= i < |t.rows| => PropagatedRow(t.rows, i)))
  }

  /** The KeyError the loop raises: reading "Repeat Instrument" from the first row of
      a frame without it, or reading `rghc` from a non-treatment row when there is no
      id column. */
  function PropagateError(t: Table): (e: Option<TableError>)
    ensures e.None? <==> ((|t.rows| == 0 || RepeatInstrument in t.columns)
      && (PatientId in t.columns || forall i :: 0 <= i < |t.rows| ==> IsTreatmentRow(t.rows[i])))
  {
    if |t.rows| > 0 && RepeatInstrument !in t.columns then Some(MissingColumn(RepeatInstrument))
    else if PatientId !in t.columns && exists i :: 0 <= i < |t.rows| && !IsTreatmentRow(t.rows[i]) then Some(MissingColumn(PatientId))
    else None
  }

  /** The `for index, row in redcap_df.iterrows()` loop. A frame on which the loop
      would raise is reported before any row is written; the frame is local to
      `redcap_labels` and the error ends it, so the rows written before the error
      are never seen. */
  method PropagateRghc(df: DataFrame) returns (err: Option<TableError>)
    modifies df
    ensures err == PropagateError(old(df.Snapshot()))
    ensures df.Snapshot() == if err.None? then Propagated(old(df.Snapshot())) else old(df.Snapshot())
  {
    var orig := df.Snapshot();
    err := PropagateError(orig);
    if err.Some? {
      return;
    }
    var rghc: Value := Some(Str(""));
    var i := 0;
    while i < |orig.rows|
      invariant 0 <= i <= |orig.rows|
      invariant |df.rows| == |orig.rows|
      invariant df.columns == PropagatedColumns(orig, i)
      invariant forall j :: 0 <= j < i ==> df.rows[j] == PropagatedRow(orig.rows, j)
      invariant forall j :: i <= j < |orig.rows| ==> df.rows[j] == orig.rows[j]
      invariant rghc == Carried(orig.rows, i)
    {
      var row := df.rows[i];
      if IsTreatmentRow(row) {
        df.SetCell(i, PatientId, rghc);
      } else {
        rghc := Get(row, PatientId);
      }
      i := i + 1;
    }
    assert df.rows == Propagated(orig).rows;
  }

  // ---------------------------------------------------------------------------
  // Excluding patients and keeping treatment lines

  /** `df1 = df.dropna(subset=["Sexo"])`, then the ids of its rows with no final
      outcome: the patients whose follow-up has not been updated. */
  function Unactualized(t: Table): set<Value>
  {
    set i | 0 <= i < |t.rows| && Get(t.rows[i], Sex).Some? && Get(t.rows[i], FinalOutcome).None? :: Get(t.rows[i], PatientId)
  }

  /** The mask `~df.rghc.isin(unactualized)`. */
  function NotUnactualized(t: Table): Row -> bool
  {
    x => Get(x, PatientId) !in Unactualized(t)
  }

  /** `df[~df.rghc.isin(unactualized)]`, after the three columns it reads: the rows of
      the other patients, in their order and with their repetitions. */
  function Excluded(t: Table): (r: Result<Table, TableError>)
    ensures r.Err? <==> Sex !in t.columns || FinalOutcome !in t.columns || PatientId !in t.columns
    ensures r.Ok? ==> r.value.columns == t.columns
    ensures r.Ok? ==> r.value.rows == FilterRows(t.rows, NotUnactualized(t))
    ensures r.Ok? ==> forall x :: x in r.value.rows <==> x in t.rows && Get(x, PatientId) !in Unactualized(t)
  {
    if Sex !in t.columns then Err(MissingColumn(Sex))
    else if FinalOutcome !in t.columns then Err(MissingColumn(FinalOutcome))
    else if PatientId !in t.columns then Err(MissingColumn(PatientId))
    else Ok(Filter(t, NotUnactualized(t)))
  }

  /** A patient with some row that records a sex but no final outcome loses all of
      their rows, treatment lines included. */
  lemma ExcludesWholePatient(t: Table, i: nat, j: nat)
    requires Excluded(t).Ok?
    requires i < |t.rows| && j < |t.rows|
    requires Get(t.rows[j], Sex).Some? && Get(t.rows[j], FinalOutcome).None?
    requires Get(t.rows[i], PatientId) == Get(t.rows[j], PatientId)
    ensures t.rows[i] !in Excluded(t).value.rows
  {
    assert Get(t.rows[i], PatientId) in Unactualized(t);
  }

  /** `df[df["Repeat Instrument"] == "Linha de Tratamento"]`. */
  function TreatmentLines(t: Table): (r: Result<Table, TableError>)
    ensures r.Err? <==> RepeatInstrument !in t.columns
    ensures r.Ok? ==> r.value.columns == t.columns && r.value.rows == FilterRows(t.rows, IsTreatmentRow)
  {
    if RepeatInstrument !in t.columns then Err(MissingColumn(RepeatInstrument))
    else Ok(Filter(t, IsTreatmentRow))
  }

  /** The kept rows are exactly the treatment rows, in their relative order: keeping
      the treatment lines of two consecutive stretches of rows gives the lines of the
      first followed by those of the second. */
  lemma TreatmentLinesInOrder(t: Table, k: nat)
    requires TreatmentLines(t).Ok? && k <= |t.rows|
    ensures forall x :: x in TreatmentLines(t).value.rows <==> x in t.rows && IsTreatmentRow(x)
    ensures TreatmentLines(t).value.rows == FilterRows(t.rows[..k], IsTreatmentRow) + FilterRows(t.rows[k..], IsTreatmentRow)
  {
    assert t.rows == t.rows[..k] + t.rows[k..];
    FilterRowsAppend(t.rows[..k], t.rows[k..], IsTreatmentRow);
  }

  // ---------------------------------------------------------------------------
  // The whole extraction

  /** The frame before the filters: ids renamed, checkboxes recast, ids carried into
      the treatment lines, the three drug lists built and the questions renamed. */
  function Prepared(input: Table): Result<Table, TableError>
  {
    var recast := Replaced(Renamed(input, IdRename), CheckboxAnswers);
    match PropagateError(recast)
    case Some(e) => Err(e)
    case None =>
      var (t1, e1) := Utils.Retrieved(Propagated(recast), InductionDrugsSource, InductionDrugs);
      if e1.Some? then Err(e1.value)
      else
        var (t2, e2) := Utils.Retrieved(t1, ConsolidationDrugsSource, ConsolidationDrugs);
        if e2.Some? then Err(e2.value)
        else
          var (t3, e3) := Utils.Retrieved(t2, MaintenanceDrugsSource, MaintenanceDrugs);
          if e3.Some? then Err(e3.value)
          else Ok(Renamed(t3, RenameColumns))
  }

  /** The label table `redcap_labels` writes: the kept patients' treatment lines,
      projected to the label columns. */
  function Labels(input: Table): Result<Table, TableError>
  {
    match Prepared(input)
    case Err(e) => Err(e)
    case Ok(p) =>
      match Excluded(p)
      case Err(e) => Err(e)
      case Ok(kept) =>
        match TreatmentLines(kept)
        case Err(e) => Err(e)
        case Ok(lines) => Project(lines, LabelColumns)
  }

  /** `redcap_labels` on the frame read from the export, without the CSV writing. */
  method RedcapLabels(input: Table) returns (r: Result<Table, TableError>)
    ensures r == Labels(input)
  {
    var df := new DataFrame(input);
    df.Rename(IdRename);
    df.Replace(CheckboxAnswers);
    var err := PropagateRghc(df);
    if err.Some? {
      return Err(err.value);
    }
    err := Utils.RetrieveDrugs(df, InductionDrugsSource, InductionDrugs);
    if err.Some? {
      return Err(err.value);
    }
    err := Utils.RetrieveDrugs(df, ConsolidationDrugsSource, ConsolidationDrugs);
    if err.Some? {
      return Err(err.value);
    }
    err := Utils.RetrieveDrugs(df, MaintenanceDrugsSource, MaintenanceDrugs);
    if err.Some? {
      return Err(err.value);
    }
    df.Rename(RenameColumns);
    var prepared := df.Snapshot();
    match Excluded(prepared)
    case Err(e) =>
      r := Err(e);
    case Ok(kept) =>
      match TreatmentLines(kept)
      case Err(e) =>
        r := Err(e);
      case Ok(lines) =>
        r := Project(lines, LabelColumns);
  }

  /** The written table holds the label columns, one row per kept treatment line. */
  lemma LabelsShape(input: Table)
    requires Labels(input).Ok?
    ensures Labels(input).value.columns == LabelColumns
    ensures var p := Prepared(input).value; var kept := Excluded(p).value;
      |Labels(input).value.rows| == |FilterRows(kept.rows, IsTreatmentRow)|
      && forall i, c :: 0 <= i < |Labels(input).value.rows| && c in LabelColumns ==>
        Get(Labels(input).value.rows[i], c) == Get(FilterRows(kept.rows, IsTreatmentRow)[i], c)
  {
  }
}
