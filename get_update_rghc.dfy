/** Which patients' REDCap follow-up is recent (src/get_update_rghc.py): each
    patient's latest date in any date column of the REDCap export, compared with the
    date of their latest TASY consultation. */
module GetUpdateRghc {
  import opened Wrappers
  import opened Calendar
  import opened Tables
  import opened Config
  import opened Timestamps

  /** `pd.to_datetime(df[c], format="%d/%m/%Y", errors="raise")` succeeds: every cell
      of the column is missing, a NaT string, or a day-first date. */
  predicate IsDateColumn(t: Table, c: string)
  {
    forall i :: 0 <= i < |t.rows| ==> ReadDate(Get(t.rows[i], c)).Ok?
  }

  /** The date columns among `cols`, in their order. */
  function DateColumnsOf(t: Table, cols: seq<string>): (r: seq<string>)
    ensures forall c :: c in r <==> c in cols && IsDateColumn(t, c)
  {
    if |cols| == 0 then []
    else
      var init, last := cols[..|cols| - 1], cols[|cols| - 1];
      assert cols == init + [last];
      DateColumnsOf(t, init) + if IsDateColumn(t, last) then [last] else []
  }

  /** The detection loop of `get_max_redcap_date`: each column is tried in turn and
      appended when it converts. */
  method DetectDateColumns(t: Table) returns (dateColumns: seq<string>)
    ensures dateColumns == DateColumnsOf(t, t.columns)
  {
    dateColumns := [];
    var k := 0;
    while k < |t.columns|
      invariant 0 <= k <= |t.columns|
      invariant dateColumns == DateColumnsOf(t, t.columns[..k])
    {
      var col := t.columns[k];
      var converts := true;
      var i := 0;
      while i < |t.rows| && converts
        invariant 0 <= i <= |t.rows|
        invariant converts <==> forall j :: 0 <= j < i ==> ReadDate(Get(t.rows[j], col)).Ok?
      {
        converts := ReadDate(Get(t.rows[i], col)).Ok?;
        i := i + 1;
      }
      assert t.columns[..k + 1][..k] == t.columns[..k] && t.columns[..k + 1][k] == col;
      if converts {
        dateColumns := dateColumns + [col];
      }
      k := k + 1;
    }
    assert t.columns[..k] == t.columns;
  }

  /** Some row of patient `v` holds date `d` in column `c`. */
  predicate HasDate(rows: seq<Row>, v: Cell, c: string, d: Date)
  {
    exists i :: 0 <= i < |rows| && Get(rows[i], PatientId) == Some(v) && ReadDate(Get(rows[i], c)) == Ok(Some(d))
  }

  /** The dates of one column in the rows of patient `v`, NaT left out. */
  function ColumnDates(rows: seq<Row>, c: string, v: Cell): (ds: seq<Date>)
    ensures forall d :: d in ds <==> HasDate(rows, v, c, d)
  {
    if |rows| == 0 then []
    else
      var rest := ColumnDates(rows[1..], c, v);
      assert forall i :: 1 <= i < |rows| ==> rows[i] == rows[1..][i - 1];
      assert forall d :: HasDate(rows, v, c, d) <==> (HasDate(rows[1..], v, c, d)
        || (Get(rows[0], PatientId) == Some(v) && ReadDate(Get(rows[0], c)) == Ok(Some(d)))) by {
        forall d | HasDate(rows[1..], v, c, d)
          ensures HasDate(rows, v, c, d)
        {
          var i :| 0 <= i < |rows[1..]| && Get(rows[1..][i], PatientId) == Some(v) && ReadDate(Get(rows[1..][i], c)) == Ok(Some(d));
          assert rows[i + 1] == rows[1..][i];
        }
      }
      if Get(rows[0], PatientId) == Some(v) && ReadDate(Get(rows[0], c)).Ok? && ReadDate(Get(rows[0], c)).value.Some?
      then [ReadDate(Get(rows[0], c)).value.value] + rest
      else rest
  }

  /** `[x for lst in row for x in lst if pd.notna(x)]` for patient `v`: the dates of
      the date columns, column by column. */
  function PatientDates(t: Table, cols: seq<string>, v: Cell): (ds: seq<Date>)
    ensures forall d :: d in ds <==> exists c :: c in cols && HasDate(t.rows, v, c, d)
  {
    if |cols| == 0 then []
    else
      assert forall c :: c in cols <==> c == cols[0] || c in cols[1..];
      ColumnDates(t.rows, cols[0], v) + PatientDates(t, cols[1..], v)
  }

  /** The `max_redcap_date` of each patient group: one entry per patient id present
      in the frame, NaT for a patient without any date. */
  function MaxDates(t: Table, cols: seq<string>): (r: map<Cell, Option<Date>>)
    ensures r.Keys == Ids(t, PatientId)
  {
    map v | v in Ids(t, PatientId) :: Latest(PatientDates(t, cols, v))
  }

  /** The name `to_frame` gives the column of maxima. */
  const MaxRedcapDate: string := "max_redcap_date"

  /** The frame `get_max_redcap_date` returns. Normally it has one row per patient
      group, holding `rghc` and the latest date. When the export has date columns but
      no patient id, there are no groups. The first `apply` then probes its lambda on
      a row of NaN, the lambda raises, and pandas hands back the empty frame itself.
      The second `apply` reduces that frame column by column. The result has one
      NaT row per date column, under `index`, and no `rghc` column. */
  datatype MaxRedcapFrame =
    | PerPatient(latest: map<Cell, Option<Date>>)
    | PerDateColumn(columns: seq<string>)

  /** The one result `apply` cannot shape: patient groups but no date column. The
      probe on the empty row returns `[]`, and pandas cannot take it as the values
      of a series with one entry per group, so it raises ValueError. */
  predicate NoDateColumnFails(t: Table)
  {
    Ids(t, PatientId) != {} && DateColumnsOf(t, t.columns) == []
  }

  /** `get_max_redcap_date(df)`. Grouping by a column the frame lacks raises
      KeyError, and an apply with no date column raises ValueError. An export without
      patient ids but with date columns gives the frame indexed by those columns.
      Otherwise each patient id present has its latest date, NaT when there is none. */
  function MaxRedcapDates(t: Table): (r: Result<MaxRedcapFrame, TableError>)
    ensures r.Err? <==> PatientId !in t.columns || NoDateColumnFails(t)
    ensures r.Err? ==> r.error == if PatientId !in t.columns then MissingColumn(PatientId) else ShapeMismatch(MaxRedcapDate)
    ensures r.Ok? ==> (r.value.PerDateColumn? <==> Ids(t, PatientId) == {} && DateColumnsOf(t, t.columns) != [])
    ensures r.Ok? && r.value.PerDateColumn? ==>
              forall c :: c in r.value.columns <==> c in t.columns && IsDateColumn(t, c)
    ensures r.Ok? && r.value.PerPatient? ==> r.value.latest.Keys == Ids(t, PatientId)
  {
    if PatientId !in t.columns then Err(MissingColumn(PatientId))
    else
      var cols := DateColumnsOf(t, t.columns);
      if NoDateColumnFails(t) then Err(ShapeMismatch(MaxRedcapDate))
      else if Ids(t, PatientId) == {} && cols != [] then Ok(PerDateColumn(cols))
      else Ok(PerPatient(MaxDates(t, cols)))
  }

  method GetMaxRedcapDate(t: Table) returns (r: Result<MaxRedcapFrame, TableError>)
    ensures r == MaxRedcapDates(t)
  {
    var dateColumns := DetectDateColumns(t);
    if PatientId !in t.columns {
      return Err(MissingColumn(PatientId));
    }
    var ids := Ids(t, PatientId);
    if ids != {} && dateColumns == [] {
      return Err(ShapeMismatch(MaxRedcapDate));
    }
    if ids == {} && dateColumns != [] {
      return Ok(PerDateColumn(dateColumns));
    }
    r := Ok(PerPatient(MaxDates(t, dateColumns)));
  }

  /** A patient's `max_redcap_date` is no earlier than any date in their date-column
      cells and is one of them; it is NaT exactly when those cells hold no date, every
      missing cell being ignored. */
  lemma MaxIsLatestDate(t: Table, v: Cell)
    requires MaxRedcapDates(t).Ok? && v in Ids(t, PatientId)
    ensures MaxRedcapDates(t).value.PerPatient?
    ensures var m := MaxRedcapDates(t).value.latest[v]; var cols := DateColumnsOf(t, t.columns);
      && (forall c, d :: c in cols && HasDate(t.rows, v, c, d) ==> m.Some? && !Before(m.value, d))
      && (m.Some? ==> exists c :: c in cols && HasDate(t.rows, v, c, m.value))
  {
    var cols := DateColumnsOf(t, t.columns);
    var ds := PatientDates(t, cols, v);
    var m := MaxRedcapDates(t).value.latest[v];
    assert m == Latest(ds);
    forall c, d | c in cols && HasDate(t.rows, v, c, d)
      ensures m.Some? && !Before(m.value, d)
    {
      assert d in ds;
    }
  }

  // ---------------------------------------------------------------------------
  // The selection rule

  /** A TASY consultation: the patient and `data_dt`. */
  datatype Visit = Visit(patient: Value, date: Option<Date>)

  /** `dt_diff < 30` with `dt_diff = (data_dt - max_redcap_date).dt.days`: a NaT on
      either side gives NaN, which compares false. */
  predicate Recent(latest: Option<Date>, visit: Option<Date>)
  {
    latest.Some? && visit.Some? && IsValid(latest.value) && IsValid(visit.value)
    && DaysBetween(latest.value, visit.value) < 30
  }

  /** The patients of `update_rghc_list`: those with a consultation, joined on the
      patient id, less than 30 days after their latest REDCap date. */
  function UpdatedPatients(maxDates: map<Cell, Option<Date>>, visits: seq<Visit>): (r: set<Cell>)
    ensures forall v :: v in r <==> v in maxDates && exists j :: 0 <= j < |visits| && visits[j].patient == Some(v) && Recent(maxDates[v], visits[j].date)
  {
    set j | 0 <= j < |visits| && visits[j].patient.Some? && visits[j].patient.value in maxDates
      && Recent(maxDates[visits[j].patient.value], visits[j].date) :: visits[j].patient.value
  }

  /** A consultation on or before the latest REDCap date always qualifies: negative
      differences are below 30 too. */
  lemma EarlierVisitIsRecent(latest: Date, visit: Date)
    requires IsValid(latest) && IsValid(visit) && !Before(latest, visit)
    ensures Recent(Some(latest), Some(visit))
  {
    DayNumberOrder(latest, visit);
  }

  /** The window ends after 29 days: in any year, a consultation on 30 January
      qualifies against 1 January and one on 31 January does not. */
  lemma ThirtyDayWindow(y: int)
    requires 1 <= y <= 9999
    ensures Recent(Some(Date(y, 1, 1)), Some(Date(y, 1, 30)))
    ensures !Recent(Some(Date(y, 1, 1)), Some(Date(y, 1, 31)))
  {
  }

  /** The main block on the REDCap export (its capitalised id renamed) and the TASY
      consultations. The merge on `rghc` raises KeyError on a frame of maxima that has
      no `rghc` column. */
  function UpdateList(redcap: Table, visits: seq<Visit>): (r: Result<set<Cell>, TableError>)
    ensures var t := Renamed(redcap, map["RGHC" := PatientId]);
      r.Err? <==> PatientId !in t.columns || (Ids(t, PatientId) == {} <==> DateColumnsOf(t, t.columns) != [])
    ensures var t := Renamed(redcap, map["RGHC" := PatientId]);
      r.Err? ==> (r.error == ShapeMismatch(MaxRedcapDate) <==> PatientId in t.columns && NoDateColumnFails(t))
    ensures var t := Renamed(redcap, map["RGHC" := PatientId]);
      r.Ok? ==> forall v :: v in r.value <==>
        v in Ids(t, PatientId) && (exists j :: 0 <= j < |visits| && visits[j].patient == Some(v)
                                    && Recent(Latest(PatientDates(t, DateColumnsOf(t, t.columns), v)), visits[j].date))
  {
    match MaxRedcapDates(Renamed(redcap, map["RGHC" := PatientId]))
    case Err(e) => Err(e)
    case Ok(PerDateColumn(_)) => Err(MissingColumn(PatientId))
    case Ok(PerPatient(m)) => Ok(UpdatedPatients(m, visits))
  }

  /** An export with the `rghc` column but no rows has no patient id, and every
      column converts. The maxima come out per date column, and the merge raises
      KeyError. */
  lemma EmptyExportFailsMerge()
    ensures MaxRedcapDates(Table([PatientId, "A"], [])) == Ok(PerDateColumn([PatientId, "A"]))
    ensures UpdateList(Table([PatientId, "A"], []), [Visit(Some(Int(1)), None)]) == Err(MissingColumn(PatientId))
  {
    var t := Table([PatientId, "A"], []);
    assert IsDateColumn(t, PatientId) && IsDateColumn(t, "A");
    assert [PatientId, "A"][..1] == [PatientId];
    assert DateColumnsOf(t, [PatientId]) == [PatientId];
    assert DateColumnsOf(t, t.columns) == [PatientId, "A"];
    assert Ids(t, PatientId) == {};
    assert Renamed(t, map["RGHC" := PatientId]).columns == t.columns;
  }
}
