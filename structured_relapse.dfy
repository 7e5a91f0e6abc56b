/** The relapse schema (`src/structured_relapse.py`): a required flag, an optional
    relapse date, and the five-branch date validator. Unlike the treatment schema's
    validator it runs after the field's pattern, so it only ever sees values the
    pattern has already accepted. */
module StructuredRelapse {
  import opened Wrappers
  import opened Text
  import opened Calendar
  import opened Strptime
  import StructuredTreatment

  /** The branches of `validate_date`, in the order the code tries them. */
  const RelapseFormats := [DayMonthYear4, MonthDayYear4, DayMonthYear2, MonthDayYear2, MonthYear4]

  /** The date a branch's reading stands for: the month/year branch moves it to the 15th. */
  function Corrected(k: nat, d: Date): (c: Date)
    requires IsValid(d)
    ensures IsValid(c)
    ensures k == 4 ==> c == Date(d.year, d.month, 15)
    ensures k != 4 ==> c == d
  {
    if k == 4 then d.(day := 15) else d
  }

  /** `Relapse.validate_date`: a value that reads as dd/mm/YYYY is returned as it is;
      otherwise the first of mm/dd/YYYY, dd/mm/yy, mm/dd/yy and mm/YYYY that reads it
      is rewritten as dd/mm/YYYY, a month/year on the 15th; a value none of them
      reads is returned as it is. */
  function ValidateDate(v: Option<string>): (r: Option<string>)
    ensures r.Some? <==> v.Some?
    ensures v.Some? && Parse(v.value, DayMonthYear4).Some? ==> r == v
    ensures v.Some? && FirstParse(v.value, RelapseFormats).None? ==> r == v
    ensures v.Some? && r != v ==>
              var p := FirstParse(v.value, RelapseFormats);
              p.Some? && 1 <= p.value.0 && IsCanonical(r.value)
              && Parse(r.value, DayMonthYear4) == Some(Corrected(p.value.0, p.value.1))
    ensures v.Some? && Parse(v.value, DayMonthYear4).None? && FirstParse(v.value, RelapseFormats).Some? ==> r != v
  {
    match v
    case None => None
    case Some(s) =>
      match FirstParse(s, RelapseFormats)
      case None => v
      case Some((k, d)) =>
        if k == 0 then v
        else
          var c := Corrected(k, d);
          StrftimeRoundTrip(c);
          Some(Strftime(c))
  }

  /** What `validate_date` logs for a value. */
  function DateWarningOf(v: Option<string>): (w: Option<DateWarning>)
    ensures w.None? <==> v.None? || Parse(v.value, DayMonthYear4).Some?
    ensures w.Some? && w.value.Corrected? ==> v.Some? && ValidateDate(v) == Some(w.value.corrected) && ValidateDate(v) != v
    ensures w.Some? && w.value.InvalidFormat? ==> v.Some? && ValidateDate(v) == v
  {
    match v
    case None => None
    case Some(s) =>
      match FirstParse(s, RelapseFormats)
      case None => Some(InvalidFormat(s))
      case Some((k, d)) =>
        if k == 0 then None else Some(DateWarning.Corrected(s, RelapseFormats[k], Strftime(Corrected(k, d))))
  }

  /** Running the validator on its own output changes nothing. */
  lemma ValidateDateIdempotent(v: Option<string>)
    ensures ValidateDate(ValidateDate(v)) == ValidateDate(v)
  {
    var r := ValidateDate(v);
    if v.Some? && r != v {
      assert Parse(r.value, DayMonthYear4).Some?;
    }
  }

  /** The branches with dd/mm/yy tried second: dd/mm/YYYY, dd/mm/yy, mm/dd/YYYY, mm/dd/yy, mm/YYYY. */
  const SwappedFormats := [DayMonthYear4, DayMonthYear2, MonthDayYear4, MonthDayYear2, MonthYear4]

  /** The relapse chain is the treatment chain with month/year tried last. */
  lemma RelapseChain(s: string)
    ensures FirstParse(s, RelapseFormats) ==
              match FirstParse(s, StructuredTreatment.TreatmentFormats)
              case Some(p) => Some(p)
              case None => (match Parse(s, MonthYear4) case Some(d) => Some((4, d)) case None => None)
    ensures FirstParse(s, SwappedFormats) ==
              match FirstParse(s, StructuredTreatment.SwappedFormats)
              case Some(p) => Some(p)
              case None => (match Parse(s, MonthYear4) case Some(d) => Some((4, d)) case None => None)
  {
    assert RelapseFormats == StructuredTreatment.TreatmentFormats + [MonthYear4];
    FirstParseAppend(s, StructuredTreatment.TreatmentFormats, MonthYear4);
    assert SwappedFormats == StructuredTreatment.SwappedFormats + [MonthYear4];
    FirstParseAppend(s, StructuredTreatment.SwappedFormats, MonthYear4);
  }

  /** Trying dd/mm/yy before mm/dd/YYYY picks the same format and the same date for
      every string here too. */
  lemma SwappedOrderAgrees(s: string)
    ensures FirstParse(s, RelapseFormats).None? <==> FirstParse(s, SwappedFormats).None?
    ensures FirstParse(s, RelapseFormats).Some? ==>
              var p, q := FirstParse(s, RelapseFormats).value, FirstParse(s, SwappedFormats).value;
              RelapseFormats[p.0] == SwappedFormats[q.0] && p.1 == q.1
  {
    RelapseChain(s);
    StructuredTreatment.SwappedOrderAgrees(s);
  }

  /** On the first four branches the relapse validator and the treatment validator
      agree; they differ only on values that read as month/year alone. */
  lemma AgreesWithTreatmentValidator(v: Option<string>)
    requires v.Some? ==> Parse(v.value, MonthYear4).None?
    ensures ValidateDate(v) == StructuredTreatment.ValidateDate(v)
  {
    if v.Some? {
      RelapseChain(v.value);
    }
  }

  // ---------------------------------------------------------------------------
  // Field acceptance: `pattern=DATE_REGEX`, then the after-validator

  /** The relapse date's raw value through the field pattern and then
      `validate_date`: a missing value is accepted as None, a value the pattern
      rejects is reported (Err) before the validator sees it. */
  function AcceptRelapseDate(raw: Option<string>): (r: Result<Option<string>, string>)
    ensures raw.None? ==> r == Ok(None)
    ensures raw.Some? ==> (r.Ok? <==> MatchesDateRegex(raw.value))
    ensures r.Ok? ==> r.value == ValidateDate(raw)
    ensures r.Err? ==> r.error == raw.value
  {
    match raw
    case None => Ok(None)
    case Some(s) => if MatchesDateRegex(s) then Ok(ValidateDate(raw)) else Err(s)
  }

  /** No value the pattern accepts splits into month and year alone, so the
      month/year branch never runs on a relapse date that reached the validator. */
  lemma MonthYearUnreachable(s: string)
    requires MatchesDateRegex(s)
    ensures Parse(s, MonthYear4).None?
    ensures FirstParse(s, RelapseFormats).Some? ==> FirstParse(s, RelapseFormats).value.0 < 4
  {
    SplitOfPatterned(s);
    RelapseChain(s);
  }

  /** Every accepted relapse date matches the field pattern: either it is the raw
      value, which did, or it is a dd/mm/YYYY rewrite. It is what the treatment
      schema's validator makes of the same value. */
  lemma AcceptedRelapseDate(raw: Option<string>)
    requires AcceptRelapseDate(raw).Ok? && raw.Some?
    ensures MatchesDateRegex(AcceptRelapseDate(raw).value.value)
    ensures AcceptRelapseDate(raw).value == StructuredTreatment.ValidateDate(raw)
  {
    MonthYearUnreachable(raw.value);
    AgreesWithTreatmentValidator(raw);
    var w := ValidateDate(raw);
    if w != raw {
      var p := FirstParse(raw.value, RelapseFormats);
      StrftimeRoundTrip(Corrected(p.value.0, p.value.1));
    }
  }

  /** An accepted value is accepted again, unchanged. */
  lemma AcceptRelapseDateIdempotent(raw: Option<string>)
    requires AcceptRelapseDate(raw).Ok?
    ensures AcceptRelapseDate(AcceptRelapseDate(raw).value) == AcceptRelapseDate(raw)
  {
    if raw.Some? {
      AcceptedRelapseDate(raw);
      ValidateDateIdempotent(raw);
    }
  }

  // ---------------------------------------------------------------------------
  // The record

  /** `Relapse` as the JSON object gives it: None for a missing or null key. */
  datatype RawRelapse = RawRelapse(relapse: Option<bool>, relapseDt: Option<string>)

  /** A validated `Relapse`: the flag is required, the date optional. */
  datatype Relapse = Relapse(relapse: bool, relapseDt: Option<string>)

  function DumpRelapse(r: Relapse): RawRelapse
  {
    RawRelapse(Some(r.relapse), r.relapseDt)
  }

  /** `Relapse(**raw)`: the flag must be present and the date accepted; the errors
      come in field order. */
  function ValidateRelapse(raw: RawRelapse): (r: Result<Relapse, seq<StructuredTreatment.FieldError>>)
    ensures r.Ok? <==> raw.relapse.Some? && AcceptRelapseDate(raw.relapseDt).Ok?
    ensures r.Ok? ==> r.value.relapse == raw.relapse.value && r.value.relapseDt == AcceptRelapseDate(raw.relapseDt).value
    ensures r.Err? ==> (StructuredTreatment.Missing("relapse") in r.error <==> raw.relapse.None?)
    ensures r.Err? ==> (AcceptRelapseDate(raw.relapseDt).Err? <==>
                         raw.relapseDt.Some? && StructuredTreatment.PatternMismatch("relapse_dt", raw.relapseDt.value) in r.error)
  {
    var flag := if raw.relapse.None? then [StructuredTreatment.Missing("relapse")] else [];
    var date := match AcceptRelapseDate(raw.relapseDt) case Ok(_) => [] case Err(s) => [StructuredTreatment.PatternMismatch("relapse_dt", s)];
    if flag + date != [] then Err(flag + date)
    else Ok(Relapse(raw.relapse.value, AcceptRelapseDate(raw.relapseDt).value))
  }

  /** Validating a validated record's dump gives the same record. */
  lemma ValidateRelapseRevalidates(raw: RawRelapse)
    requires ValidateRelapse(raw).Ok?
    ensures ValidateRelapse(DumpRelapse(ValidateRelapse(raw).value)) == ValidateRelapse(raw)
  {
    AcceptRelapseDateIdempotent(raw.relapseDt);
  }

  // ---------------------------------------------------------------------------
  // Worked example

  lemma March2020Split()
    ensures Split("03/2020", '/') == ["03", "2020"]
  {
    SplitAfterPiece("03", '/', "2020");
    assert "03" + ['/'] + "2020" == "03/2020";
    SplitNoSeparator("2020", '/');
  }

  lemma March2020Tokens()
    ensures TokenValue("03", MonthNumber) == Some(3)
    ensures TokenValue("2020", Year4) == Some(2020)
  {
    TwoDigitValue("03");
    FourDigitValue("2020");
  }

  lemma ReadsMarch2020()
    ensures FirstParse("03/2020", RelapseFormats) == Some((4, Date(2020, 3, 1)))
  {
    March2020Split();
    March2020Tokens();
    ParseTwoTokens("03/2020", MonthYear4, "03", "2020", 3, 2020);
    StructuredTreatment.TreatmentChain("03/2020");
    RelapseChain("03/2020");
  }

  lemma March15Written()
    ensures Strftime(Date(2020, 3, 15)) == "15/03/2020"
  {
    StrftimeDigits(Date(2020, 3, 15));
    DigitChars();
    assert 2020 / 10 / 10 / 10 == 2 && 2020 / 10 / 10 % 10 == 0 && 2020 / 10 % 10 == 2 && 2020 % 10 == 0;
    assert 15 / 10 == 1 && 15 % 10 == 5 && 3 / 10 == 0 && 3 % 10 == 3;
  }

  /** The validator maps "03/2020" to the 15th, "15/03/2020", but a relapse date of
      "03/2020" never reaches it: the pattern rejects it first. */
  lemma MonthYearExample()
    ensures ValidateDate(Some("03/2020")) == Some("15/03/2020")
    ensures AcceptRelapseDate(Some("03/2020")) == Err("03/2020")
  {
    ReadsMarch2020();
    March15Written();
  }
}
