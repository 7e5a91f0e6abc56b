/** The newer treatment-line schema (`src/structured_treatment.py`): the lenient
    date validator that runs before each date field's pattern, the transplant-type
    normaliser, and the validation of a whole record and of a list of records.

    A raw record is what the JSON object holds before validation: `None` for a key
    that is missing or null. Validation either yields the validated record or the
    list of field errors, in the order the fields are declared. */
module StructuredTreatment {
  import opened Wrappers
  import opened Text
  import opened Calendar
  import opened Strptime

  // ---------------------------------------------------------------------------
  // The date validator (`mode="before"`)

  /** The branches of `validate_date`, in the order the code tries them. */
  const TreatmentFormats := [DayMonthYear4, MonthDayYear4, DayMonthYear2, MonthDayYear2]

  /** `TreatmentLine.validate_date`: a value that reads as dd/mm/YYYY is returned as it
      is; otherwise the first of mm/dd/YYYY, dd/mm/yy and mm/dd/yy that reads it is
      rewritten as dd/mm/YYYY; a value none of them reads is returned as it is. */
  function ValidateDate(v: Option<string>): (r: Option<string>)
    ensures r.Some? <==> v.Some?
    ensures v.Some? && Parse(v.value, DayMonthYear4).Some? ==> r == v
    ensures v.Some? && FirstParse(v.value, TreatmentFormats).None? ==> r == v
    ensures v.Some? && r != v ==>
              var p := FirstParse(v.value, TreatmentFormats);
              p.Some? && 1 <= p.value.0 && IsCanonical(r.value) && Parse(r.value, DayMonthYear4) == Some(p.value.1)
    ensures v.Some? && Parse(v.value, DayMonthYear4).None? && FirstParse(v.value, TreatmentFormats).Some? ==> r != v
  {
    match v
    case None => None
    case Some(s) =>
      match FirstParse(s, TreatmentFormats)
      case None => v
      case Some((k, d)) =>
        if k == 0 then v
        else
          StrftimeRoundTrip(d);
          Some(Strftime(d))
  }

  /** What `validate_date` logs for a value. */
  function DateWarningOf(v: Option<string>): (w: Option<DateWarning>)
    ensures w.None? <==> v.None? || Parse(v.value, DayMonthYear4).Some?
    ensures w.Some? && w.value.Corrected? ==> v.Some? && ValidateDate(v) == Some(w.value.corrected) && ValidateDate(v) != v
    ensures w.Some? && w.value.InvalidFormat? ==> v.Some? && ValidateDate(v) == v
  {
    match v
    case None => None
    case Some(s) =>
      match FirstParse(s, TreatmentFormats)
      case None => Some(InvalidFormat(s))
      case Some((k, d)) =>
        if k == 0 then None else Some(Corrected(s, TreatmentFormats[k], Strftime(d)))
  }

  /** Running the validator on its own output changes nothing. */
  lemma ValidateDateIdempotent(v: Option<string>)
    ensures ValidateDate(ValidateDate(v)) == ValidateDate(v)
  {
    var r := ValidateDate(v);
    if v.Some? && r != v {
      assert Parse(r.value, DayMonthYear4).Some?;
    }
  }

  /** Every value the validator produces either is its input or is the zero-padded
      dd/mm/YYYY of a valid date, which both date patterns accept. */
  lemma RewritesAreCanonical(v: Option<string>)
    requires v.Some? && ValidateDate(v) != v
    ensures IsCanonical(ValidateDate(v).value)
    ensures MatchesDateRegex(ValidateDate(v).value) && MatchesStrictDateRegex(ValidateDate(v).value)
  {
    var p := FirstParse(v.value, TreatmentFormats);
    StrftimeRoundTrip(p.value.1);
  }

  /** The branches with the middle two swapped: dd/mm/YYYY, dd/mm/yy, mm/dd/YYYY, mm/dd/yy. */
  const SwappedFormats := [DayMonthYear4, DayMonthYear2, MonthDayYear4, MonthDayYear2]

  /** Trying dd/mm/yy before mm/dd/YYYY picks the same format and the same date for
      every string: no string reads both with a four-digit and a two-digit year, so
      the order of those two branches does not matter. */
  lemma SwappedOrderAgrees(s: string)
    ensures FirstParse(s, TreatmentFormats).None? <==> FirstParse(s, SwappedFormats).None?
    ensures FirstParse(s, TreatmentFormats).Some? ==>
              var p, q := FirstParse(s, TreatmentFormats).value, FirstParse(s, SwappedFormats).value;
              TreatmentFormats[p.0] == SwappedFormats[q.0] && p.1 == q.1
  {
    TreatmentChain(s);
    SwappedChain(s);
    YearWidthsExclusive(s, MonthDayYear4, DayMonthYear2);
    YearWidthsExclusive(s, MonthDayYear4, MonthDayYear2);
    YearWidthsExclusive(s, DayMonthYear4, DayMonthYear2);
    YearWidthsExclusive(s, DayMonthYear4, MonthDayYear2);
  }

  // ---------------------------------------------------------------------------
  // Field acceptance: before-validator, then `pattern=DATE_REGEX`

  /** A date field's raw value through `validate_date` and then the field pattern:
      a missing value is accepted as None; otherwise the validator's output is kept
      when it matches the pattern and is reported (Err) when it does not. */
  function AcceptDateField(raw: Option<string>): (r: Result<Option<string>, string>)
    ensures raw.None? ==> r == Ok(None)
    ensures raw.Some? && r.Ok? ==> r.value == ValidateDate(raw) && MatchesDateRegex(r.value.value)
    ensures raw.Some? && r.Err? ==> Some(r.error) == ValidateDate(raw) && !MatchesDateRegex(r.error)
  {
    match ValidateDate(raw)
    case None => Ok(None)
    case Some(w) => if MatchesDateRegex(w) then Ok(Some(w)) else Err(w)
  }

  /** A correction always passes the pattern: a value the validator rewrites is accepted. */
  lemma CorrectionsAccepted(raw: Option<string>)
    requires raw.Some? && ValidateDate(raw) != raw
    ensures AcceptDateField(raw) == Ok(ValidateDate(raw))
  {
    RewritesAreCanonical(raw);
  }

  /** An accepted value is accepted again, unchanged. */
  lemma AcceptDateFieldIdempotent(raw: Option<string>)
    requires AcceptDateField(raw).Ok?
    ensures AcceptDateField(AcceptDateField(raw).value) == AcceptDateField(raw)
  {
    ValidateDateIdempotent(raw);
  }

  // ---------------------------------------------------------------------------
  // The rewrite as glibc writes it

  /** `validate_date` with its rewrite written by glibc's `strftime`, as CPython on
      Linux runs it: a year below 1000 comes out without its leading zeros. It
      differs from `ValidateDate` exactly there, and what it writes then is not
      read back by the dd/mm/YYYY branch nor accepted by the strict pattern. */
  function ValidateDateUnpadded(v: Option<string>): (r: Option<string>)
    ensures r.Some? <==> v.Some?
    ensures r != ValidateDate(v) <==>
              (v.Some? && var p := FirstParse(v.value, TreatmentFormats);
               p.Some? && 1 <= p.value.0 && p.value.1.year < 1000)
    ensures r != ValidateDate(v) ==> !MatchesStrictDateRegex(r.value) && Parse(r.value, DayMonthYear4).None?
  {
    match v
    case None => None
    case Some(s) =>
      match FirstParse(s, TreatmentFormats)
      case None => v
      case Some((k, d)) =>
        if k == 0 then v
        else
          assert |Strftime(d)| == 10;
          Some(StrftimeUnpadded(d))
  }

  // ---------------------------------------------------------------------------
  // The transplant-type normaliser (`mode="before"`)

  const AutologoSpellings: set<string> := {"autologo", "aut\U{F3}logo"}
  const AlogenicoSpellings: set<string> := {"alog\U{EA}nico", "alogenico"}

  /** `normalize_transplant_type`: the value lower-cased and then stripped, mapped to
      "autologo" or "alogenico" when it is one of their spellings, and otherwise
      returned lower-cased and stripped. */
  function NormalizeTransplantType(v: Option<string>): (r: Option<string>)
    ensures r.Some? <==> v.Some?
    ensures v.Some? && Strip(Lower(v.value)) in AutologoSpellings ==> r == Some("autologo")
    ensures v.Some? && Strip(Lower(v.value)) in AlogenicoSpellings ==> r == Some("alogenico")
    ensures v.Some? && Strip(Lower(v.value)) !in AutologoSpellings + AlogenicoSpellings ==> r == Some(Strip(Lower(v.value)))
  {
    match v
    case None => None
    case Some(s) =>
      var t := Strip(Lower(s));
      if t in AutologoSpellings then Some("autologo")
      else if t in AlogenicoSpellings then Some("alogenico")
      else Some(t)
  }

  /** `Invalid transplant type` is logged exactly for a value that is neither spelling. */
  predicate TransplantTypeWarns(v: Option<string>)
  {
    v.Some? && Strip(Lower(v.value)) !in AutologoSpellings + AlogenicoSpellings
  }

  /** Lower-casing and stripping an already lower-cased, stripped string changes nothing. */
  lemma StripLowerStable(s: string)
    ensures Strip(Lower(Strip(Lower(s)))) == Strip(Lower(s))
  {
    LowerIsLowered(s);
    StripOfLowered(Lower(s));
    LowerOfLowered(Strip(Lower(s)));
    StripIdempotent(Lower(s));
  }

  lemma AutologoStable()
    ensures Strip(Lower("autologo")) == "autologo"
  {
    LowerOfLowered("autologo");
    StripStripped("autologo");
  }

  lemma AlogenicoStable()
    ensures Strip(Lower("alogenico")) == "alogenico"
  {
    LowerOfLowered("alogenico");
    StripStripped("alogenico");
  }

  /** The normaliser's output is a fixed point of the normaliser. */
  lemma NormalizeTransplantTypeIdempotent(v: Option<string>)
    ensures NormalizeTransplantType(NormalizeTransplantType(v)) == NormalizeTransplantType(v)
  {
    if v.Some? {
      StripLowerStable(v.value);
      AutologoStable();
      AlogenicoStable();
    }
  }

  // ---------------------------------------------------------------------------
  // The record

  /** `TreatmentLine` as the JSON object gives it: None for a missing or null key. */
  datatype RawTreatmentLine = RawTreatmentLine(
    lineNumber: Option<int>,
    inducaoStart: Option<string>, inducaoEnd: Option<string>, inducaoMedicamentos: Option<string>,
    consolidacaoStart: Option<string>, consolidacaoEnd: Option<string>, consolidacaoMedicamentos: Option<string>,
    manutencaoStart: Option<string>, manutencaoEnd: Option<string>, manutencaoMedicamentos: Option<string>,
    radioStart: Option<string>, radioEnd: Option<string>,
    transplantDt: Option<string>,
    transplantType: Option<string>)

  /** A validated `TreatmentLine`: `line_number` is required, every other field optional. */
  datatype TreatmentLine = TreatmentLine(
    lineNumber: int,
    inducaoStart: Option<string>, inducaoEnd: Option<string>, inducaoMedicamentos: Option<string>,
    consolidacaoStart: Option<string>, consolidacaoEnd: Option<string>, consolidacaoMedicamentos: Option<string>,
    manutencaoStart: Option<string>, manutencaoEnd: Option<string>, manutencaoMedicamentos: Option<string>,
    radioStart: Option<string>, radioEnd: Option<string>,
    transplantDt: Option<string>,
    transplantType: Option<string>)

  /** A validation error, located by the field's name. */
  datatype FieldError = Missing(field: string) | PatternMismatch(field: string, input: string)

  /** `model_dump()`: the validated record as a raw one. */
  function Dump(l: TreatmentLine): RawTreatmentLine
  {
    RawTreatmentLine(Some(l.lineNumber),
      l.inducaoStart, l.inducaoEnd, l.inducaoMedicamentos,
      l.consolidacaoStart, l.consolidacaoEnd, l.consolidacaoMedicamentos,
      l.manutencaoStart, l.manutencaoEnd, l.manutencaoMedicamentos,
      l.radioStart, l.radioEnd, l.transplantDt, l.transplantType)
  }

  /** The nine date fields with their names, in declaration order. */
  function DateFields(raw: RawTreatmentLine): seq<(string, Option<string>)>
  {
    [("inducao_start", raw.inducaoStart), ("inducao_end", raw.inducaoEnd),
     ("consolidacao_start", raw.consolidacaoStart), ("consolidacao_end", raw.consolidacaoEnd),
     ("manutencao_start", raw.manutencaoStart), ("manutencao_end", raw.manutencaoEnd),
     ("radio_start", raw.radioStart), ("radio_end", raw.radioEnd),
     ("transplant_dt", raw.transplantDt)]
  }

  /** The pattern errors of the date fields, in order. */
  function DateErrors(fields: seq<(string, Option<string>)>, accept: Option<string> -> Result<Option<string>, string>): (errs: seq<FieldError>)
    ensures errs == [] <==> forall i :: 0 <= i < |fields| ==> accept(fields[i].1).Ok?
    ensures forall e :: e in errs ==> e.PatternMismatch?
  {
    if |fields| == 0 then []
    else
      var here := match accept(fields[0].1) case Ok(_) => [] case Err(s) => [PatternMismatch(fields[0].0, s)];
      var rest := DateErrors(fields[1..], accept);
      assert forall i :: 1 <= i < |fields| ==> fields[i] == fields[1..][i - 1];
      here + rest
  }

  /** Validation of a record whose date fields go through `accept`: `line_number` must
      be present and every date field accepted; the free-text fields are kept and the
      transplant type is normalised. */
  function LineWith(raw: RawTreatmentLine, accept: Option<string> -> Result<Option<string>, string>): (r: Result<TreatmentLine, seq<FieldError>>)
    ensures r.Ok? <==> raw.lineNumber.Some? && forall i :: 0 <= i < |DateFields(raw)| ==> accept(DateFields(raw)[i].1).Ok?
    ensures r.Ok? ==> r.value.lineNumber == raw.lineNumber.value
    ensures r.Ok? ==> forall i :: 0 <= i < |DateFields(raw)| ==> DateFields(Dump(r.value))[i].1 == accept(DateFields(raw)[i].1).value
    ensures r.Ok? ==> (r.value.inducaoMedicamentos == raw.inducaoMedicamentos
                       && r.value.consolidacaoMedicamentos == raw.consolidacaoMedicamentos
                       && r.value.manutencaoMedicamentos == raw.manutencaoMedicamentos)
    ensures r.Ok? ==> r.value.transplantType == NormalizeTransplantType(raw.transplantType)
    ensures r.Err? ==> |r.error| > 0 && (r.error[0] == Missing("line_number") <==> raw.lineNumber.None?)
  {
    var fs := DateFields(raw);
    var dateErrs := DateErrors(fs, accept);
    var errs := (if raw.lineNumber.None? then [Missing("line_number")] else []) + dateErrs;
    if errs != [] then
      assert raw.lineNumber.Some? ==> errs[0] in dateErrs;
      Err(errs)
    else
      assert accept(fs[0].1).Ok? && accept(fs[1].1).Ok? && accept(fs[2].1).Ok?;
      assert accept(fs[3].1).Ok? && accept(fs[4].1).Ok? && accept(fs[5].1).Ok?;
      assert accept(fs[6].1).Ok? && accept(fs[7].1).Ok? && accept(fs[8].1).Ok?;
      Ok(TreatmentLine(raw.lineNumber.value,
        accept(raw.inducaoStart).value, accept(raw.inducaoEnd).value, raw.inducaoMedicamentos,
        accept(raw.consolidacaoStart).value, accept(raw.consolidacaoEnd).value, raw.consolidacaoMedicamentos,
        accept(raw.manutencaoStart).value, accept(raw.manutencaoEnd).value, raw.manutencaoMedicamentos,
        accept(raw.radioStart).value, accept(raw.radioEnd).value,
        accept(raw.transplantDt).value,
        NormalizeTransplantType(raw.transplantType)))
  }

  /** Validating the dump of a validated record gives the record back, for any date
      acceptor that accepts its own output unchanged. */
  lemma LineWithRevalidates(raw: RawTreatmentLine, accept: Option<string> -> Result<Option<string>, string>)
    requires LineWith(raw, accept).Ok?
    requires forall v :: accept(v).Ok? ==> accept(accept(v).value) == accept(v)
    ensures LineWith(Dump(LineWith(raw, accept).value), accept) == LineWith(raw, accept)
  {
    var l := LineWith(raw, accept).value;
    var fs, gs := DateFields(raw), DateFields(Dump(l));
    forall i | 0 <= i < |gs|
      ensures accept(gs[i].1) == Ok(gs[i].1)
    {
      assert gs[i].1 == accept(fs[i].1).value;
    }
    NormalizeTransplantTypeIdempotent(raw.transplantType);
    var m := LineWith(Dump(l), accept).value;
    var hs := DateFields(Dump(m));
    forall i | 0 <= i < |gs|
      ensures hs[i].1 == gs[i].1
    {
      assert hs[i].1 == accept(gs[i].1).value;
    }
    assert hs[0].1 == gs[0].1 && hs[1].1 == gs[1].1 && hs[2].1 == gs[2].1;
    assert hs[3].1 == gs[3].1 && hs[4].1 == gs[4].1 && hs[5].1 == gs[5].1;
    assert hs[6].1 == gs[6].1 && hs[7].1 == gs[7].1 && hs[8].1 == gs[8].1;
    assert m == l;
  }

  lemma {:induction false} DateErrorsAgree(fields: seq<(string, Option<string>)>, a1: Option<string> -> Result<Option<string>, string>, a2: Option<string> -> Result<Option<string>, string>)
    requires forall i :: 0 <= i < |fields| ==> a1(fields[i].1) == a2(fields[i].1)
    ensures DateErrors(fields, a1) == DateErrors(fields, a2)
  {
    if |fields| > 0 {
      assert forall i :: 1 <= i < |fields| ==> fields[i] == fields[1..][i - 1];
      DateErrorsAgree(fields[1..], a1, a2);
    }
  }

  /** Two date acceptors that agree on a record's date fields validate it alike. */
  lemma LineWithAgree(raw: RawTreatmentLine, a1: Option<string> -> Result<Option<string>, string>, a2: Option<string> -> Result<Option<string>, string>)
    requires forall i :: 0 <= i < |DateFields(raw)| ==> a1(DateFields(raw)[i].1) == a2(DateFields(raw)[i].1)
    ensures LineWith(raw, a1) == LineWith(raw, a2)
  {
    var fs := DateFields(raw);
    DateErrorsAgree(fs, a1, a2);
    assert a1(fs[0].1) == a2(fs[0].1) && a1(fs[1].1) == a2(fs[1].1) && a1(fs[2].1) == a2(fs[2].1);
    assert a1(fs[3].1) == a2(fs[3].1) && a1(fs[4].1) == a2(fs[4].1) && a1(fs[5].1) == a2(fs[5].1);
    assert a1(fs[6].1) == a2(fs[6].1) && a1(fs[7].1) == a2(fs[7].1) && a1(fs[8].1) == a2(fs[8].1);
  }

  /** `TreatmentLine(**raw)`. */
  function ValidateLine(raw: RawTreatmentLine): (r: Result<TreatmentLine, seq<FieldError>>)
    ensures r.Ok? <==> raw.lineNumber.Some? && forall i :: 0 <= i < |DateFields(raw)| ==> AcceptDateField(DateFields(raw)[i].1).Ok?
    ensures r.Ok? ==> forall i :: 0 <= i < |DateFields(raw)| ==>
                        DateFields(Dump(r.value))[i].1 == ValidateDate(DateFields(raw)[i].1)
                        && (DateFields(raw)[i].1.Some? ==> MatchesDateRegex(DateFields(Dump(r.value))[i].1.value))
    ensures r.Ok? ==> r.value.lineNumber == raw.lineNumber.value
    ensures r.Ok? ==> (r.value.inducaoMedicamentos == raw.inducaoMedicamentos
                       && r.value.consolidacaoMedicamentos == raw.consolidacaoMedicamentos
                       && r.value.manutencaoMedicamentos == raw.manutencaoMedicamentos)
    ensures r.Ok? ==> r.value.transplantType == NormalizeTransplantType(raw.transplantType)
    ensures r.Err? ==> |r.error| > 0 && (r.error[0] == Missing("line_number") <==> raw.lineNumber.None?)
  {
    LineWith(raw, AcceptDateField)
  }

  /** Validating a validated record's dump gives the same record. */
  lemma ValidateLineRevalidates(raw: RawTreatmentLine)
    requires ValidateLine(raw).Ok?
    ensures ValidateLine(Dump(ValidateLine(raw).value)) == ValidateLine(raw)
  {
    forall v | AcceptDateField(v).Ok?
      ensures AcceptDateField(AcceptDateField(v).value) == AcceptDateField(v)
    {
      AcceptDateFieldIdempotent(v);
    }
    LineWithRevalidates(raw, AcceptDateField);
  }

  // ---------------------------------------------------------------------------
  // The container

  /** An error in the record at position `index` of `linhas`. */
  datatype LineError = LineError(index: nat, error: FieldError)

  function Located(index: nat, errs: seq<FieldError>): (r: seq<LineError>)
    ensures |r| == |errs| && forall k :: 0 <= k < |r| ==> r[k] == LineError(index, errs[k])
  {
    seq(|errs|, k requires 0 <= k < |errs| => LineError(index, errs[k]))
  }

  /** `TreatmentLines(linhas=raws)` for a record validator `validate`, the records
      numbered from `offset`: valid when every record is, and then the validated
      records in their order; otherwise every error of every invalid record, each
      located by the record's position. */
  function LinesWith(raws: seq<RawTreatmentLine>, validate: RawTreatmentLine -> Result<TreatmentLine, seq<FieldError>>, offset: nat)
    : (r: Result<seq<TreatmentLine>, seq<LineError>>)
    ensures r.Ok? <==> forall i :: 0 <= i < |raws| ==> validate(raws[i]).Ok?
    ensures r.Ok? ==> |r.value| == |raws| && forall i :: 0 <= i < |raws| ==> Ok(r.value[i]) == validate(raws[i])
    ensures r.Err? ==> forall e :: e in r.error ==>
              offset <= e.index < offset + |raws|
              && validate(raws[e.index - offset]).Err? && e.error in validate(raws[e.index - offset]).error
    ensures r.Err? ==> forall i :: 0 <= i < |raws| && validate(raws[i]).Err? ==>
              forall k :: 0 <= k < |validate(raws[i]).error| ==> LineError(offset + i, validate(raws[i]).error[k]) in r.error
  {
    if |raws| == 0 then Ok([])
    else
      var rest := LinesWith(raws[1..], validate, offset + 1);
      assert forall i :: 1 <= i < |raws| ==> raws[i] == raws[1..][i - 1];
      match validate(raws[0])
      case Ok(l) => if rest.Ok? then Ok([l] + rest.value) else rest
      case Err(e) => Err(Located(offset, e) + (if rest.Err? then rest.error else []))
  }

  /** `TreatmentLines(linhas=raws)`. */
  function ValidateLines(raws: seq<RawTreatmentLine>): (r: Result<seq<TreatmentLine>, seq<LineError>>)
    ensures r.Ok? <==> forall i :: 0 <= i < |raws| ==> ValidateLine(raws[i]).Ok?
    ensures r.Ok? ==> |r.value| == |raws| && forall i :: 0 <= i < |raws| ==> Ok(r.value[i]) == ValidateLine(raws[i])
    ensures r.Err? ==> |r.error| > 0 && forall e :: e in r.error ==> e.index < |raws| && ValidateLine(raws[e.index]).Err?
  {
    var r := LinesWith(raws, ValidateLine, 0);
    assert r.Err? ==> |r.error| > 0 by {
      if r.Err? {
        var i :| 0 <= i < |raws| && ValidateLine(raws[i]).Err?;
        assert LineError(i, ValidateLine(raws[i]).error[0]) in r.error;
      }
    }
    r
  }

  // ---------------------------------------------------------------------------
  // Worked examples

  /** The validator's chain of branches, written out. */
  lemma TreatmentChain(s: string)
    ensures FirstParse(s, TreatmentFormats) ==
              if Parse(s, DayMonthYear4).Some? then Some((0, Parse(s, DayMonthYear4).value))
              else if Parse(s, MonthDayYear4).Some? then Some((1, Parse(s, MonthDayYear4).value))
              else if Parse(s, DayMonthYear2).Some? then Some((2, Parse(s, DayMonthYear2).value))
              else if Parse(s, MonthDayYear2).Some? then Some((3, Parse(s, MonthDayYear2).value))
              else None
  {
    FirstParseCons(s, DayMonthYear4, [MonthDayYear4, DayMonthYear2, MonthDayYear2]);
    FirstParseCons(s, MonthDayYear4, [DayMonthYear2, MonthDayYear2]);
    FirstParseCons(s, DayMonthYear2, [MonthDayYear2]);
    FirstParseCons(s, MonthDayYear2, []);
  }

  /** The swapped chain of branches, written out. */
  lemma SwappedChain(s: string)
    ensures FirstParse(s, SwappedFormats) ==
              if Parse(s, DayMonthYear4).Some? then Some((0, Parse(s, DayMonthYear4).value))
              else if Parse(s, DayMonthYear2).Some? then Some((1, Parse(s, DayMonthYear2).value))
              else if Parse(s, MonthDayYear4).Some? then Some((2, Parse(s, MonthDayYear4).value))
              else if Parse(s, MonthDayYear2).Some? then Some((3, Parse(s, MonthDayYear2).value))
              else None
  {
    FirstParseCons(s, DayMonthYear4, [DayMonthYear2, MonthDayYear4, MonthDayYear2]);
    FirstParseCons(s, DayMonthYear2, [MonthDayYear4, MonthDayYear2]);
    FirstParseCons(s, MonthDayYear4, [MonthDayYear2]);
    FirstParseCons(s, MonthDayYear2, []);
  }

  lemma December25Split()
    ensures Split("12/25/2020", '/') == ["12", "25", "2020"]
  {
    SplitThree("12", "25", "2020");
    assert "12" + "/" + "25" + "/" + "2020" == "12/25/2020";
  }

  lemma December25Tokens()
    ensures TokenValue("12", MonthNumber) == Some(12)
    ensures TokenValue("25", DayOfMonth) == Some(25) && TokenValue("25", MonthNumber) == None
    ensures TokenValue("2020", Year4) == Some(2020)
  {
    TwoDigitValue("12");
    TwoDigitValue("25");
    FourDigitValue("2020");
  }

  lemma ReadsDecember25()
    ensures Parse("12/25/2020", DayMonthYear4).None?
    ensures Parse("12/25/2020", MonthDayYear4) == Some(Date(2020, 12, 25))
  {
    December25Split();
    December25Tokens();
    ParseRejectsToken("12/25/2020", DayMonthYear4, 1);
    ParseThreeTokens("12/25/2020", MonthDayYear4, "12", "25", "2020", 12, 25, 2020);
  }

  lemma December25Chain()
    ensures FirstParse("12/25/2020", TreatmentFormats) == Some((1, Date(2020, 12, 25)))
  {
    ReadsDecember25();
    TreatmentChain("12/25/2020");
  }

  lemma December25Written()
    ensures Strftime(Date(2020, 12, 25)) == "25/12/2020"
  {
    StrftimeDigits(Date(2020, 12, 25));
    DigitChars();
    assert 2020 / 10 / 10 / 10 == 2 && 2020 / 10 / 10 % 10 == 0 && 2020 / 10 % 10 == 2 && 2020 % 10 == 0;
    assert 25 / 10 == 2 && 25 % 10 == 5 && 12 / 10 == 1 && 12 % 10 == 2;
  }

  /** mm/dd/YYYY is tried before the two-digit years: "12/25/2020" becomes "25/12/2020". */
  lemma MonthFirstCorrected()
    ensures ValidateDate(Some("12/25/2020")) == Some("25/12/2020")
  {
    December25Chain();
    December25Written();
  }

  lemma March5Split()
    ensures Split("05/03/2021", '/') == ["05", "03", "2021"]
  {
    SplitThree("05", "03", "2021");
    assert "05" + "/" + "03" + "/" + "2021" == "05/03/2021";
  }

  lemma UnpaddedMarch5Split()
    ensures Split("5/3/2021", '/') == ["5", "3", "2021"]
  {
    SplitThree("5", "3", "2021");
    assert "5" + "/" + "3" + "/" + "2021" == "5/3/2021";
  }

  lemma March5Tokens()
    ensures TokenValue("05", DayOfMonth) == Some(5) && TokenValue("03", MonthNumber) == Some(3)
    ensures TokenValue("5", DayOfMonth) == Some(5) && TokenValue("3", MonthNumber) == Some(3)
    ensures TokenValue("2021", Year4) == Some(2021)
  {
    TwoDigitValue("05");
    TwoDigitValue("03");
    FourDigitValue("2021");
  }

  lemma ReadsMarch5()
    ensures Parse("05/03/2021", DayMonthYear4) == Some(Date(2021, 3, 5))
    ensures Parse("5/3/2021", DayMonthYear4) == Some(Date(2021, 3, 5))
  {
    March5Split();
    UnpaddedMarch5Split();
    March5Tokens();
    ParseThreeTokens("05/03/2021", DayMonthYear4, "05", "03", "2021", 5, 3, 2021);
    ParseThreeTokens("5/3/2021", DayMonthYear4, "5", "3", "2021", 5, 3, 2021);
  }

  /** dd/mm/YYYY is tried first, so "05/03/2021" stays the 5th of March, and an
      unpadded "5/3/2021" is kept as it is too; it then fails the field pattern. */
  lemma DayFirstKept()
    ensures ValidateDate(Some("05/03/2021")) == Some("05/03/2021")
    ensures ValidateDate(Some("5/3/2021")) == Some("5/3/2021")
  {
    ReadsMarch5();
  }

  lemma March5Matches()
    ensures MatchesDateRegex("05/03/2021")
  {
  }

  /** The padded form passes the field pattern ... */
  lemma DayFirstAccepted()
    ensures AcceptDateField(Some("05/03/2021")) == Ok(Some("05/03/2021"))
  {
    DayFirstKept();
    March5Matches();
    AcceptedAsValidated(Some("05/03/2021"), "05/03/2021");
  }

  /** The field pattern decides alone once the validator's output is known. */
  lemma AcceptedAsValidated(raw: Option<string>, w: string)
    requires ValidateDate(raw) == Some(w)
    ensures AcceptDateField(raw) == if MatchesDateRegex(w) then Ok(Some(w)) else Err(w)
  {
  }

  /** ... and the unpadded one is rejected. */
  lemma UnpaddedRejected()
    ensures AcceptDateField(Some("5/3/2021")) == Err("5/3/2021")
  {
    DayFirstKept();
    assert !MatchesDateRegex("5/3/2021");
    AcceptedAsValidated(Some("5/3/2021"), "5/3/2021");
  }

  lemma NewYears68Split()
    ensures Split("01/01/68", '/') == ["01", "01", "68"]
  {
    SplitThree("01", "01", "68");
    assert "01" + "/" + "01" + "/" + "68" == "01/01/68";
  }

  lemma NewYears69Split()
    ensures Split("01/01/69", '/') == ["01", "01", "69"]
  {
    SplitThree("01", "01", "69");
    assert "01" + "/" + "01" + "/" + "69" == "01/01/69";
  }

  lemma NewYearsTokens()
    ensures TokenValue("01", DayOfMonth) == Some(1) && TokenValue("01", MonthNumber) == Some(1)
    ensures TokenValue("68", Year2) == Some(2068) && TokenValue("68", Year4) == None
    ensures TokenValue("69", Year2) == Some(1969) && TokenValue("69", Year4) == None
  {
    TwoDigitValue("01");
    TwoDigitValue("68");
    TwoDigitValue("69");
  }

  lemma ReadsNewYear68()
    ensures Parse("01/01/68", DayMonthYear4).None? && Parse("01/01/68", MonthDayYear4).None?
    ensures Parse("01/01/68", DayMonthYear2) == Some(Date(2068, 1, 1))
  {
    NewYears68Split();
    NewYearsTokens();
    ParseRejectsToken("01/01/68", DayMonthYear4, 2);
    ParseRejectsToken("01/01/68", MonthDayYear4, 2);
    ParseThreeTokens("01/01/68", DayMonthYear2, "01", "01", "68", 1, 1, 2068);
  }

  lemma ReadsNewYear69()
    ensures Parse("01/01/69", DayMonthYear4).None? && Parse("01/01/69", MonthDayYear4).None?
    ensures Parse("01/01/69", DayMonthYear2) == Some(Date(1969, 1, 1))
  {
    NewYears69Split();
    NewYearsTokens();
    ParseRejectsToken("01/01/69", DayMonthYear4, 2);
    ParseRejectsToken("01/01/69", MonthDayYear4, 2);
    ParseThreeTokens("01/01/69", DayMonthYear2, "01", "01", "69", 1, 1, 1969);
  }

  lemma NewYearsChain()
    ensures FirstParse("01/01/68", TreatmentFormats) == Some((2, Date(2068, 1, 1)))
    ensures FirstParse("01/01/69", TreatmentFormats) == Some((2, Date(1969, 1, 1)))
  {
    ReadsNewYear68();
    ReadsNewYear69();
    TreatmentChain("01/01/68");
    TreatmentChain("01/01/69");
  }

  lemma NewYear2068Written()
    ensures Strftime(Date(2068, 1, 1)) == "01/01/2068"
  {
    StrftimeDigits(Date(2068, 1, 1));
    DigitChars();
    assert 2068 / 10 / 10 / 10 == 2 && 2068 / 10 / 10 % 10 == 0 && 2068 / 10 % 10 == 6 && 2068 % 10 == 8;
    assert 1 / 10 == 0 && 1 % 10 == 1 && 1 / 10 == 0 && 1 % 10 == 1;
  }

  lemma NewYear1969Written()
    ensures Strftime(Date(1969, 1, 1)) == "01/01/1969"
  {
    StrftimeDigits(Date(1969, 1, 1));
    DigitChars();
    assert 1969 / 10 / 10 / 10 == 1 && 1969 / 10 / 10 % 10 == 9 && 1969 / 10 % 10 == 6 && 1969 % 10 == 9;
    assert 1 / 10 == 0 && 1 % 10 == 1 && 1 / 10 == 0 && 1 % 10 == 1;
  }

  /** The two-digit-year pivot: "68" is 2068 and "69" is 1969. */
  lemma TwoDigitYearPivot()
    ensures ValidateDate(Some("01/01/68")) == Some("01/01/2068")
    ensures ValidateDate(Some("01/01/69")) == Some("01/01/1969")
  {
    NewYearsChain();
    NewYear2068Written();
    NewYear1969Written();
  }

  lemma February31Split()
    ensures Split("31/02/2020", '/') == ["31", "02", "2020"]
  {
    SplitThree("31", "02", "2020");
    assert "31" + "/" + "02" + "/" + "2020" == "31/02/2020";
  }

  lemma February31Tokens()
    ensures TokenValue("31", DayOfMonth) == Some(31) && TokenValue("31", MonthNumber) == None
    ensures TokenValue("02", MonthNumber) == Some(2)
    ensures TokenValue("2020", Year4) == Some(2020) && TokenValue("2020", Year2) == None
  {
    TwoDigitValue("31");
    TwoDigitValue("02");
    FourDigitValue("2020");
  }

  lemma ReadsNoFebruary31()
    ensures Parse("31/02/2020", DayMonthYear4).None? && Parse("31/02/2020", MonthDayYear4).None?
    ensures Parse("31/02/2020", DayMonthYear2).None? && Parse("31/02/2020", MonthDayYear2).None?
  {
    February31Split();
    February31Tokens();
    ParseThreeTokens("31/02/2020", DayMonthYear4, "31", "02", "2020", 31, 2, 2020);
    ParseRejectsToken("31/02/2020", MonthDayYear4, 0);
    ParseRejectsToken("31/02/2020", DayMonthYear2, 2);
    ParseRejectsToken("31/02/2020", MonthDayYear2, 2);
  }

  /** A value no branch reads is returned unchanged: "31/02/2020", which is not a date
      (and then passes the field pattern), and "abc". */
  lemma UnreadableKept()
    ensures ValidateDate(Some("31/02/2020")) == Some("31/02/2020")
    ensures ValidateDate(Some("abc")) == Some("abc")
  {
    ReadsNoFebruary31();
    TreatmentChain("31/02/2020");
    SplitNoSeparator("abc", '/');
    TreatmentChain("abc");
  }

  lemma February31Matches()
    ensures MatchesDateRegex("31/02/2020") && MatchesStrictDateRegex("31/02/2020")
  {
  }

  /** Only the field pattern tells them apart: "31/02/2020" is accepted, "abc" is not. */
  lemma UnreadableAccepted()
    ensures AcceptDateField(Some("31/02/2020")) == Ok(Some("31/02/2020"))
    ensures AcceptDateField(Some("abc")) == Err("abc")
  {
    UnreadableKept();
    February31Matches();
  }

  lemma Year999Split()
    ensures Split("12/25/0999", '/') == ["12", "25", "0999"]
  {
    SplitThree("12", "25", "0999");
    assert "12" + "/" + "25" + "/" + "0999" == "12/25/0999";
  }

  lemma Year50Split()
    ensures Split("12/25/0050", '/') == ["12", "25", "0050"]
  {
    SplitThree("12", "25", "0050");
    assert "12" + "/" + "25" + "/" + "0050" == "12/25/0050";
  }

  lemma ShortYearTokens()
    ensures TokenValue("0999", Year4) == Some(999) && TokenValue("0050", Year4) == Some(50)
  {
    FourDigitValue("0999");
    FourDigitValue("0050");
  }

  lemma ReadsYear999()
    ensures FirstParse("12/25/0999", TreatmentFormats) == Some((1, Date(999, 12, 25)))
  {
    Year999Split();
    December25Tokens();
    ShortYearTokens();
    ParseRejectsToken("12/25/0999", DayMonthYear4, 1);
    ParseThreeTokens("12/25/0999", MonthDayYear4, "12", "25", "0999", 12, 25, 999);
    TreatmentChain("12/25/0999");
  }

  lemma ReadsYear50()
    ensures FirstParse("12/25/0050", TreatmentFormats) == Some((1, Date(50, 12, 25)))
  {
    Year50Split();
    December25Tokens();
    ShortYearTokens();
    ParseRejectsToken("12/25/0050", DayMonthYear4, 1);
    ParseThreeTokens("12/25/0050", MonthDayYear4, "12", "25", "0050", 12, 25, 50);
    TreatmentChain("12/25/0050");
  }

  lemma December25Padded()
    ensures Pow10(2) == 100 && ZeroPad(25, 2) == "25" && ZeroPad(12, 2) == "12"
  {
    TwoDigitPad(25);
    TwoDigitPad(12);
    DigitChars();
  }

  lemma Year999Written()
    ensures Strftime(Date(999, 12, 25)) == "25/12/0999"
    ensures StrftimeUnpadded(Date(999, 12, 25)) == "25/12/999"
  {
    StrftimeDigits(Date(999, 12, 25));
    DigitChars();
    assert 999 / 10 / 10 / 10 == 0 && 999 / 10 / 10 % 10 == 9 && 999 / 10 % 10 == 9 && 999 % 10 == 9;
    assert 25 / 10 == 2 && 25 % 10 == 5 && 12 / 10 == 1 && 12 % 10 == 2;
    December25Padded();
    assert NatToString(9) == "9";
    assert NatToString(99) == NatToString(9) + [Digit(9)];
    assert NatToString(999) == NatToString(99) + [Digit(9)];
  }

  lemma Year50Written()
    ensures StrftimeUnpadded(Date(50, 12, 25)) == "25/12/50"
  {
    December25Padded();
    DigitChars();
    assert NatToString(5) == "5";
    assert NatToString(50) == NatToString(5) + [Digit(0)];
  }

  /** A value the chain reads with a later branch is rewritten, by either rendering. */
  lemma RewrittenReading(s: string, k: nat, d: Date)
    requires FirstParse(s, TreatmentFormats) == Some((k, d)) && 1 <= k
    ensures ValidateDate(Some(s)) == Some(Strftime(d))
    ensures ValidateDateUnpadded(Some(s)) == Some(StrftimeUnpadded(d))
  {
  }

  lemma Year999Patterns()
    ensures !MatchesDateRegex("25/12/999") && MatchesDateRegex("25/12/0999")
  {
  }

  /** glibc's rendering breaks the field for "12/25/0999": the validator writes
      "25/12/999", which `DATE_REGEX` rejects, where the padded "25/12/0999" is
      accepted. */
  lemma UnpaddedRewriteRejected()
    ensures ValidateDateUnpadded(Some("12/25/0999")) == Some("25/12/999") && !MatchesDateRegex("25/12/999")
    ensures AcceptDateField(Some("12/25/0999")) == Ok(Some("25/12/0999"))
  {
    ReadsYear999();
    RewrittenReading("12/25/0999", 1, Date(999, 12, 25));
    Year999Written();
    Year999Patterns();
    AcceptedAsValidated(Some("12/25/0999"), "25/12/0999");
  }

  lemma December2050Split()
    ensures Split("25/12/50", '/') == ["25", "12", "50"]
  {
    SplitThree("25", "12", "50");
    assert "25" + "/" + "12" + "/" + "50" == "25/12/50";
  }

  lemma December2050Tokens()
    ensures TokenValue("25", DayOfMonth) == Some(25) && TokenValue("25", MonthNumber) == None
    ensures TokenValue("12", MonthNumber) == Some(12)
    ensures TokenValue("50", Year2) == Some(2050) && TokenValue("50", Year4) == None
  {
    TwoDigitValue("25");
    TwoDigitValue("12");
    TwoDigitValue("50");
  }

  lemma ReadsDecember2050()
    ensures FirstParse("25/12/50", TreatmentFormats) == Some((2, Date(2050, 12, 25)))
  {
    December2050Split();
    December2050Tokens();
    ParseRejectsToken("25/12/50", DayMonthYear4, 2);
    ParseRejectsToken("25/12/50", MonthDayYear4, 0);
    ParseThreeTokens("25/12/50", DayMonthYear2, "25", "12", "50", 25, 12, 2050);
    TreatmentChain("25/12/50");
  }

  lemma December2050Written()
    ensures StrftimeUnpadded(Date(2050, 12, 25)) == "25/12/2050"
  {
    StrftimeDigits(Date(2050, 12, 25));
    DigitChars();
    assert 2050 / 10 / 10 / 10 == 2 && 2050 / 10 / 10 % 10 == 0 && 2050 / 10 % 10 == 5 && 2050 % 10 == 0;
    assert 25 / 10 == 2 && 25 % 10 == 5 && 12 / 10 == 1 && 12 % 10 == 2;
  }

  lemma December2050Patterns()
    ensures MatchesDateRegex("25/12/50")
  {
  }

  /** glibc's rendering also makes the validator unstable: "12/25/0050" becomes
      "25/12/50", which the field pattern accepts and which a second validation
      reads as a two-digit year and moves to 2050. */
  lemma UnpaddedRewriteUnstable()
    ensures ValidateDateUnpadded(Some("12/25/0050")) == Some("25/12/50") && MatchesDateRegex("25/12/50")
    ensures ValidateDateUnpadded(Some("25/12/50")) == Some("25/12/2050")
  {
    ReadsYear50();
    RewrittenReading("12/25/0050", 1, Date(50, 12, 25));
    Year50Written();
    ReadsDecember2050();
    RewrittenReading("25/12/50", 2, Date(2050, 12, 25));
    December2050Written();
    December2050Patterns();
  }

  lemma AlogenicoCapitals()
    ensures Strip(Lower("ALOG\U{CA}NICO")) == "alog\U{EA}nico"
  {
    assert Lower("ALOG\U{CA}NICO") == "alog\U{EA}nico";
    StripStripped("alog\U{EA}nico");
  }

  lemma AutologoPadded()
    ensures Strip(Lower(" Aut\U{F3}logo ")) == "aut\U{F3}logo"
  {
    assert Lower(" Aut\U{F3}logo ") == [' '] + "aut\U{F3}logo" + [' '];
    StripSpaced("aut\U{F3}logo");
  }

  lemma Haploidentico()
    ensures Strip(Lower("Haploidentico")) == "haploidentico"
  {
    assert Lower("Haploidentico") == "haploidentico";
    StripStripped("haploidentico");
  }

  /** Capitals and accents are recognised ("ALOG\U{CA}NICO", " Aut\U{F3}logo "); an
      unlisted type ("Haploidentico") comes back lower-cased. */
  lemma TransplantTypeExamples()
    ensures NormalizeTransplantType(Some("ALOG\U{CA}NICO")) == Some("alogenico")
    ensures NormalizeTransplantType(Some(" Aut\U{F3}logo ")) == Some("autologo")
    ensures NormalizeTransplantType(Some("Haploidentico")) == Some("haploidentico")
  {
    AlogenicoCapitals();
    AutologoPadded();
    Haploidentico();
  }
}
