/** Reconciliation of extracted treatment lines against the REDCap labels: the
    per-patient difference in the number of treatment lines, and the mismatch tally
    the comparison script reports (src/compare_results.py). */
module CompareResults {
  import opened Wrappers
  import opened Tables
  import opened Config

  /** The number of rows whose `col` holds `v`. */
  function CountOf(rows: seq<Row>, col: string, v: Cell): (n: nat)
    ensures n <= |rows|
  {
    if |rows| == 0 then 0
    else (if Get(rows[0], col) == Some(v) then 1 else 0) + CountOf(rows[1..], col, v)
  }

  /** A value is counted at all exactly when some row holds it: the ids of a frame are
      the values with a positive count. */
  lemma {:induction false} CountPositive(t: Table, col: string, v: Cell)
    ensures CountOf(t.rows, col, v) > 0 <==> v in Ids(t, col)
  {
    CountPositiveRows(t.rows, col, v);
  }

  lemma {:induction false} CountPositiveRows(rows: seq<Row>, col: string, v: Cell)
    ensures CountOf(rows, col, v) > 0 <==> exists i :: 0 <= i < |rows| && Get(rows[i], col) == Some(v)
  {
    if |rows| > 0 {
      CountPositiveRows(rows[1..], col, v);
      assert forall i :: 1 <= i < |rows| ==> rows[i] == rows[1..][i - 1];
    }
  }

  function Abs(x: int): (r: nat)
    ensures r == x || r == -x
  {
    if x < 0 then -x else x
  }

  /** `df.groupby(col)[col].count()`: each id's number of rows. */
  function Counts(t: Table, col: string): (c: map<Cell, nat>)
    ensures c.Keys == Ids(t, col)
    ensures forall v :: v in c ==> c[v] == CountOf(t.rows, col, v)
  {
    map v | v in Ids(t, col) :: CountOf(t.rows, col, v)
  }

  /** `abs(c1 - c2)` on two count series: subtraction aligns them on the union of
      their ids, and an id one side lacks gets NaN (`None`). */
  function Difference(c1: map<Cell, nat>, c2: map<Cell, nat>): (d: map<Cell, Option<nat>>)
    ensures d.Keys == c1.Keys + c2.Keys
    ensures forall v :: v in d ==> d[v] == if v in c1 && v in c2 then Some(Abs(c1[v] as int - c2[v])) else None
  {
    map v | v in c1.Keys + c2.Keys :: if v in c1 && v in c2 then Some(Abs(c1[v] as int - c2[v])) else None
  }

  /** `abs(df1.groupby(id)[id].count() - df2.groupby(id)[id].count())`. Selecting a
      column the frame lacks raises KeyError. */
  function CompareNumberLines(df1: Table, df2: Table, idCol: string): (r: Result<map<Cell, Option<nat>>, TableError>)
    ensures r.Err? <==> idCol !in df1.columns || idCol !in df2.columns
    ensures r.Err? ==> r.error == MissingColumn(idCol)
    ensures r.Ok? ==> r.value.Keys == Ids(df1, idCol) + Ids(df2, idCol)
    ensures r.Ok? ==> forall v :: v in r.value ==> (r.value[v].Some? <==> v in Ids(df1, idCol) && v in Ids(df2, idCol))
    ensures r.Ok? ==> forall v :: v in r.value && r.value[v].Some? ==>
      r.value[v].value == Abs(CountOf(df1.rows, idCol, v) - CountOf(df2.rows, idCol, v))
  {
    if idCol !in df1.columns || idCol !in df2.columns then Err(MissingColumn(idCol))
    else Ok(Difference(Counts(df1, idCol), Counts(df2, idCol)))
  }

  /** Swapping the two frames gives the same series. */
  lemma CompareSymmetric(df1: Table, df2: Table, idCol: string)
    ensures CompareNumberLines(df1, df2, idCol) == CompareNumberLines(df2, df1, idCol)
  {
    var c1, c2 := Counts(df1, idCol), Counts(df2, idCol);
    var d1, d2 := Difference(c1, c2), Difference(c2, c1);
    forall v | v in d1 ensures d1[v] == d2[v] {
      if v in c1 && v in c2 {
        var x, y: int := c1[v], c2[v];
        assert Abs(x - y) == Abs(y - x);
      }
    }
    assert d1 == d2;
  }

  /** An id both frames hold gets 0 exactly when both hold it on the same number of rows. */
  lemma ZeroIffSameCount(df1: Table, df2: Table, idCol: string, v: Cell)
    requires CompareNumberLines(df1, df2, idCol).Ok?
    requires v in Ids(df1, idCol) && v in Ids(df2, idCol)
    ensures CompareNumberLines(df1, df2, idCol).value[v] == Some(0) <==> CountOf(df1.rows, idCol, v) == CountOf(df2.rows, idCol, v)
  {
  }

  /** `len(a[a != 0])`: the entries other than 0, NaN entries included, since NaN != 0. */
  function MismatchCount(a: map<Cell, Option<nat>>): (n: nat)
    ensures n <= |a|
    ensures n == 0 <==> forall v :: v in a ==> a[v] == Some(0)
  {
    var s := set v | v in a && a[v] != Some(0);
    assert a.Keys == s + (a.Keys - s) && s * (a.Keys - s) == {};
    |s|
  }

  /** The ids held on a different number of rows by each frame. */
  function Differing(df1: Table, df2: Table, idCol: string): set<Cell>
  {
    set v | v in Ids(df1, idCol) + Ids(df2, idCol) && CountOf(df1.rows, idCol, v) != CountOf(df2.rows, idCol, v)
  }

  /** The reported mismatch count is the number of patients whose line counts differ,
      an id one frame lacks counting as a difference (it has rows on one side only). */
  lemma MismatchesAreDifferences(df1: Table, df2: Table, idCol: string)
    requires CompareNumberLines(df1, df2, idCol).Ok?
    ensures MismatchCount(CompareNumberLines(df1, df2, idCol).value) == |Differing(df1, df2, idCol)|
  {
    var a := CompareNumberLines(df1, df2, idCol).value;
    var mismatched := set v | v in a && a[v] != Some(0);
    forall v | v in a
      ensures a[v] != Some(0) <==> CountOf(df1.rows, idCol, v) != CountOf(df2.rows, idCol, v)
    {
      CountPositive(df1, idCol, v);
      CountPositive(df2, idCol, v);
    }
    assert mismatched == Differing(df1, df2, idCol);
  }

  /** The rows whose patient appears among `ids`: `df.rghc.isin(ids)`. */
  function HeldBy(ids: set<Value>): Row -> bool
  {
    r => Get(r, PatientId) in ids
  }

  /** The patient cells of a frame, missing ones included: `df.rghc.tolist()`. */
  function PatientCells(t: Table): set<Value>
  {
    set i | 0 <= i < |t.rows| :: Get(t.rows[i], PatientId)
  }

  /** The tally of the script's main block on the two frames it has read, as source
      lines 26-30 and 49-54 write it: both frames are cut down to the label columns,
      which do not include the patient id, before `api_df.rghc` is read. */
  function TallyAsWritten(api: Table, check: Table): (r: Result<(nat, nat), TableError>)
  {
    match Project(api, LabelColumns)
    case Err(e) => Err(e)
    case Ok(apiLabels) =>
      if PatientId !in check.columns || PatientId !in apiLabels.columns then Err(MissingColumn(PatientId))
      else Tally(apiLabels, check, LabelColumns)
  }

  /** The rest of the main block: keep the checked rows of the extracted patients,
      project them, compare the line counts and report the mismatches and the entries. */
  function Tally(api: Table, check: Table, keep: seq<string>): Result<(nat, nat), TableError>
  {
    match Project(Filter(check, HeldBy(PatientCells(api))), keep)
    case Err(e) => Err(e)
    case Ok(checkKept) =>
      match CompareNumberLines(api, checkKept, PatientId)
      case Err(e) => Err(e)
      case Ok(a) => Ok((MismatchCount(a), |a|))
  }

  /** As written the main block cannot report anything: every pair of frames ends
      in an error, and frames holding every label column and the patient id end in
      the missing-`rghc` error of line 30. */
  lemma TallyAsWrittenFails(api: Table, check: Table)
    ensures TallyAsWritten(api, check).Err?
    ensures (forall c :: c in LabelColumns ==> c in api.columns) && PatientId in check.columns ==>
      TallyAsWritten(api, check) == Err(MissingColumn(PatientId))
  {
    assert PatientId !in LabelColumns;
  }

  /** The extracted patients whose number of checked lines differs from their number
      of extracted lines. */
  function ExtractedDiffering(api: Table, check: Table): set<Cell>
  {
    set v | v in Ids(api, PatientId) && CountOf(api.rows, PatientId, v) != CountOf(check.rows, PatientId, v)
  }

  /** The tally with the patient id kept beside the label columns. It succeeds exactly
      when both frames hold the id and every label column; it then counts one entry
      per extracted patient, and as mismatches the extracted patients whose number of
      checked lines differs. */
  function TallyCorrected(api: Table, check: Table): (r: Result<(nat, nat), TableError>)
    ensures r.Ok? <==> (forall c :: c in [PatientId] + LabelColumns ==> c in api.columns && c in check.columns)
    ensures r.Ok? ==> r.value.1 == |Ids(api, PatientId)| && r.value.0 == |ExtractedDiffering(api, check)|
  {
    var keep := [PatientId] + LabelColumns;
    match Project(api, keep)
    case Err(e) => Err(e)
    case Ok(apiKept) =>
      if PatientId !in check.columns then Err(MissingColumn(PatientId))
      else
        TallyCounts(api, check, keep);
        Tally(apiKept, check, keep)
  }

  /** What `Tally` reports on a projection that kept the patient id. */
  lemma TallyCounts(api: Table, check: Table, keep: seq<string>)
    requires PatientId in keep && Project(api, keep).Ok?
    ensures Tally(Project(api, keep).value, check, keep).Ok? <==> forall c :: c in keep ==> c in check.columns
    ensures Tally(Project(api, keep).value, check, keep).Ok? ==>
      Tally(Project(api, keep).value, check, keep).value == (|ExtractedDiffering(api, check)|, |Ids(api, PatientId)|)
  {
    var apiKept := Project(api, keep).value;
    var held := Filter(check, HeldBy(PatientCells(apiKept)));
    if Project(held, keep).Ok? {
      TallyCountsOk(api, check, keep);
    }
  }

  /** The counts `Tally` reports when the checked rows have every kept column. */
  lemma TallyCountsOk(api: Table, check: Table, keep: seq<string>)
    requires PatientId in keep && Project(api, keep).Ok?
    requires Project(Filter(check, HeldBy(PatientCells(Project(api, keep).value))), keep).Ok?
    ensures Tally(Project(api, keep).value, check, keep).Ok?
    ensures Tally(Project(api, keep).value, check, keep).value == (|ExtractedDiffering(api, check)|, |Ids(api, PatientId)|)
  {
    var apiKept := Project(api, keep).value;
    var checkKept := Project(Filter(check, HeldBy(PatientCells(apiKept))), keep).value;
    var a := CompareNumberLines(apiKept, checkKept, PatientId).value;
    assert Tally(apiKept, check, keep) == Ok((MismatchCount(a), |a|));
    KeptComparison(api, check, keep);
    MismatchesAreDifferences(apiKept, checkKept, PatientId);
  }

  /** Comparing the projections is comparing the extracted patients with their
      checked lines. */
  lemma KeptComparison(api: Table, check: Table, keep: seq<string>)
    requires PatientId in keep && Project(api, keep).Ok?
    requires Project(Filter(check, HeldBy(PatientCells(Project(api, keep).value))), keep).Ok?
    ensures var apiKept := Project(api, keep).value;
      var checkKept := Project(Filter(check, HeldBy(PatientCells(apiKept))), keep).value;
      && CompareNumberLines(apiKept, checkKept, PatientId).Ok?
      && CompareNumberLines(apiKept, checkKept, PatientId).value.Keys == Ids(api, PatientId)
      && Differing(apiKept, checkKept, PatientId) == ExtractedDiffering(api, check)
  {
    var apiKept := Project(api, keep).value;
    var held := Filter(check, HeldBy(PatientCells(apiKept)));
    ProjectKeepsCounts(api, keep, PatientId);
    HeldKeepsCounts(apiKept, check);
    ProjectKeepsCounts(held, keep, PatientId);
  }

  /** A projection that keeps a column keeps its ids and their counts. */
  lemma ProjectKeepsCounts(t: Table, keep: seq<string>, col: string)
    requires col in keep && Project(t, keep).Ok?
    ensures Ids(Project(t, keep).value, col) == Ids(t, col)
    ensures forall v :: CountOf(Project(t, keep).value.rows, col, v) == CountOf(t.rows, col, v)
  {
    var p := Project(t, keep).value;
    assert forall i :: 0 <= i < |t.rows| ==> Get(p.rows[i], col) == Get(t.rows[i], col);
    forall v ensures CountOf(p.rows, col, v) == CountOf(t.rows, col, v) {
      CountOfPointwise(p.rows, t.rows, col, v);
    }
  }

  /** Keeping the checked rows of the extracted patients keeps only extracted ids, and
      keeps each extracted patient's count of checked lines. */
  lemma HeldKeepsCounts(api: Table, check: Table)
    ensures Ids(Filter(check, HeldBy(PatientCells(api))), PatientId) <= Ids(api, PatientId)
    ensures forall v :: v in Ids(api, PatientId) ==>
      CountOf(Filter(check, HeldBy(PatientCells(api))).rows, PatientId, v) == CountOf(check.rows, PatientId, v)
  {
    var held := Filter(check, HeldBy(PatientCells(api)));
    forall v | v in Ids(held, PatientId) ensures v in Ids(api, PatientId) {
      var i :| 0 <= i < |held.rows| && Get(held.rows[i], PatientId) == Some(v);
      assert held.rows[i] in held.rows;
    }
    forall v | v in Ids(api, PatientId)
      ensures CountOf(held.rows, PatientId, v) == CountOf(check.rows, PatientId, v)
    {
      CountOfFilter(check.rows, HeldBy(PatientCells(api)), PatientId, v);
    }
  }

  /** Counting only looks at the counted column. */
  lemma {:induction false} CountOfPointwise(a: seq<Row>, b: seq<Row>, col: string, v: Cell)
    requires |a| == |b| && forall i :: 0 <= i < |a| ==> Get(a[i], col) == Get(b[i], col)
    ensures CountOf(a, col, v) == CountOf(b, col, v)
  {
    if |a| > 0 {
      assert Get(a[0], col) == Get(b[0], col);
      CountOfPointwise(a[1..], b[1..], col, v);
    }
  }

  /** A filter that keeps every row holding `v` keeps the count of `v`. */
  lemma {:induction false} CountOfFilter(rows: seq<Row>, keep: Row -> bool, col: string, v: Cell)
    requires forall i :: 0 <= i < |rows| && Get(rows[i], col) == Some(v) ==> keep(rows[i])
    ensures CountOf(FilterRows(rows, keep), col, v) == CountOf(rows, col, v)
  {
    if |rows| > 0 {
      assert forall i :: 1 <= i < |rows| ==> rows[i] == rows[1..][i - 1];
      CountOfFilter(rows[1..], keep, col, v);
      if keep(rows[0]) {
        var f := [rows[0]] + FilterRows(rows[1..], keep);
        assert f[0] == rows[0] && f[1..] == FilterRows(rows[1..], keep);
      }
    }
  }
}
