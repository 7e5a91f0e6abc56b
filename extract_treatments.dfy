/** The older treatment-line schema (`src/extract_treatments.py`): the same fields as
    the newer one, a stricter date pattern (four-digit years only) and a date
    validator that only checks: it returns every value as it received it and logs a
    warning for one that does not read as dd/mm/YYYY. */
module ExtractTreatments {
  import opened Wrappers
  import opened Strptime
  import StructuredTreatment

  /** What `validate_date` logs: a warning exactly for a present value that does not
      read as dd/mm/YYYY. */
  function DateWarningOf(v: Option<string>): (w: Option<DateWarning>)
    ensures w.Some? <==> v.Some? && Parse(v.value, DayMonthYear4).None?
    ensures w.Some? ==> w.value == InvalidFormat(v.value)
  {
    match v
    case None => None
    case Some(s) => if Parse(s, DayMonthYear4).Some? then None else Some(InvalidFormat(s))
  }

  /** A date field's raw value through `validate_date`, which hands it on unchanged,
      and then the strict pattern. */
  function AcceptDateField(raw: Option<string>): (r: Result<Option<string>, string>)
    ensures r.Ok? <==> raw.None? || MatchesStrictDateRegex(raw.value)
    ensures r.Ok? ==> r.value == raw
    ensures r.Err? ==> r.error == raw.value
  {
    match raw
    case None => Ok(None)
    case Some(s) => if MatchesStrictDateRegex(s) then Ok(raw) else Err(s)
  }

  /** `TreatmentLine(**raw)` under the older schema. */
  function ValidateLine(raw: StructuredTreatment.RawTreatmentLine): (r: Result<StructuredTreatment.TreatmentLine, seq<StructuredTreatment.FieldError>>)
    ensures r.Ok? <==> raw.lineNumber.Some? && forall i :: 0 <= i < |StructuredTreatment.DateFields(raw)| ==>
                         var v := StructuredTreatment.DateFields(raw)[i].1; v.None? || MatchesStrictDateRegex(v.value)
    ensures r.Ok? ==> StructuredTreatment.DateFields(StructuredTreatment.Dump(r.value)) == StructuredTreatment.DateFields(raw)
    ensures r.Ok? ==> r.value.lineNumber == raw.lineNumber.value
    ensures r.Ok? ==> (r.value.inducaoMedicamentos == raw.inducaoMedicamentos
                       && r.value.consolidacaoMedicamentos == raw.consolidacaoMedicamentos
                       && r.value.manutencaoMedicamentos == raw.manutencaoMedicamentos)
    ensures r.Ok? ==> r.value.transplantType == StructuredTreatment.NormalizeTransplantType(raw.transplantType)
  {
    var r := StructuredTreatment.LineWith(raw, AcceptDateField);
    assert r.Ok? ==> StructuredTreatment.DateFields(StructuredTreatment.Dump(r.value)) == StructuredTreatment.DateFields(raw) by {
      if r.Ok? {
        var fs, gs := StructuredTreatment.DateFields(raw), StructuredTreatment.DateFields(StructuredTreatment.Dump(r.value));
        assert forall i :: 0 <= i < |gs| ==> gs[i].1 == fs[i].1;
      }
    }
    r
  }

  /** `TreatmentLines(linhas=raws)` under the older schema. */
  function ValidateLines(raws: seq<StructuredTreatment.RawTreatmentLine>): (r: Result<seq<StructuredTreatment.TreatmentLine>, seq<StructuredTreatment.LineError>>)
    ensures r.Ok? <==> forall i :: 0 <= i < |raws| ==> ValidateLine(raws[i]).Ok?
    ensures r.Ok? ==> |r.value| == |raws| && forall i :: 0 <= i < |raws| ==> Ok(r.value[i]) == ValidateLine(raws[i])
    ensures r.Err? ==> |r.error| > 0 && forall e :: e in r.error ==> e.index < |raws| && ValidateLine(raws[e.index]).Err?
  {
    var r := StructuredTreatment.LinesWith(raws, ValidateLine, 0);
    assert r.Err? ==> |r.error| > 0 by {
      if r.Err? {
        var i :| 0 <= i < |raws| && ValidateLine(raws[i]).Err?;
        assert StructuredTreatment.LineError(i, ValidateLine(raws[i]).error[0]) in r.error;
      }
    }
    r
  }

  /** Validating a validated record's dump gives the same record. */
  lemma ValidateLineRevalidates(raw: StructuredTreatment.RawTreatmentLine)
    requires ValidateLine(raw).Ok?
    ensures ValidateLine(StructuredTreatment.Dump(ValidateLine(raw).value)) == ValidateLine(raw)
  {
    StructuredTreatment.LineWithRevalidates(raw, AcceptDateField);
  }

  /** A date the older schema accepts without a warning, the newer schema accepts
      unchanged: it reads as dd/mm/YYYY, so the newer validator keeps it, and the
      newer pattern is the looser one. */
  lemma OlderCleanAcceptedByNewer(raw: Option<string>)
    requires AcceptDateField(raw).Ok? && DateWarningOf(raw).None?
    ensures StructuredTreatment.AcceptDateField(raw) == AcceptDateField(raw)
  {
  }

  /** A record that validates under the older schema without any date warning
      validates to the same record under the newer schema. */
  lemma OlderCleanLineAcceptedByNewer(raw: StructuredTreatment.RawTreatmentLine)
    requires ValidateLine(raw).Ok?
    requires forall i :: 0 <= i < |StructuredTreatment.DateFields(raw)| ==> DateWarningOf(StructuredTreatment.DateFields(raw)[i].1).None?
    ensures StructuredTreatment.ValidateLine(raw) == ValidateLine(raw)
  {
    var fs := StructuredTreatment.DateFields(raw);
    forall i | 0 <= i < |fs|
      ensures StructuredTreatment.AcceptDateField(fs[i].1) == AcceptDateField(fs[i].1)
    {
      OlderCleanAcceptedByNewer(fs[i].1);
    }
    StructuredTreatment.LineWithAgree(raw, StructuredTreatment.AcceptDateField, AcceptDateField);
  }

  // ---------------------------------------------------------------------------
  // Worked examples

  /** An impossible date that fits the pattern is accepted, with only a warning. */
  lemma ImpossibleDateAccepted()
    ensures AcceptDateField(Some("31/02/2020")) == Ok(Some("31/02/2020"))
    ensures DateWarningOf(Some("31/02/2020")) == Some(InvalidFormat("31/02/2020"))
  {
    StructuredTreatment.ReadsNoFebruary31();
    StructuredTreatment.February31Matches();
  }

  /** An unpadded date, which reads as dd/mm/YYYY, fails the pattern; so does a
      two-digit year, which the newer schema would accept. */
  lemma UnpaddedRejected()
    ensures AcceptDateField(Some("1/2/2020")) == Err("1/2/2020")
    ensures AcceptDateField(Some("01/01/68")) == Err("01/01/68")
  {
    assert !MatchesStrictDateRegex("1/2/2020");
    assert !MatchesStrictDateRegex("01/01/68");
  }
}
