# hemapex: the normalisation core in Dafny

hemapex turns the free-text clinical notes of multiple-myeloma patients into
structured treatment lines. A language model reads the text, Pydantic schemas
validate what it returns, and a reconciliation script compares the result with
reference labels taken from the REDCap registry. Between the model calls and the
CSV files sits the deterministic core modelled here:

- the **schemas' date validators** (`validate_date`). They try `strptime` formats
  in a fixed order and rewrite the first one that reads the value as zero-padded
  `dd/mm/YYYY`. The older schema only checks and warns. The model also covers the
  field-pattern acceptance around each validator, the transplant-type normaliser,
  and the validation of whole records and record lists;
- the **reconciliation** of line counts per patient (`compare_number_lines`) and
  the mismatch tally of the comparison script;
- the **reference-data preparation** over tables:
  - the REDCap checkbox decoder (`retrieve_drugs`);
  - the label extraction: the recast, the patient-id propagation loop, the
    exclusion of patients whose follow-up is not up to date, and the treatment-line
    filter (`redcap_labels`);
  - each patient's latest REDCap date and the 30-day update rule
    (`get_max_redcap_date`);
  - each patient's latest TASY consultation with its joined text (`latest_tasy`).

## How behaviour is represented

**Library behaviour.** The Python library behaviour the core relies on is
modelled as well:
- `Strptime` covers `datetime.strptime`/`strftime` for the day, month and year
  directives. Its rules:
  - `%d` accepts values 1–31 and `%m` values 1–12; both also accept one-digit
    forms;
  - `%Y` takes exactly four digits;
  - `%y` takes exactly two digits, with years 00–68 mapped to 20xx and 69–99
    to 19xx;
  - the whole string must be consumed, and the date must exist.
- `Calendar` holds proleptic Gregorian dates and the `toordinal` day count.
- `Timestamps` is `pd.to_datetime` on one cell, and `.max()`. A converted date
  must fall in the range of a nanosecond `pd.Timestamp`, 1677-09-22 to 2262-04-11
  at midnight; any other date raises `OutOfBoundsDatetime`, a ValueError.
- `Text` supplies `strip`, `lower`, `find`, `rstrip`, `split` and `join`.
- `Tables` models frames. A row is a map from column name to an optional cell,
  with `None` for NaN/NaT.

**Value and state.**
- Pure code is written as functions with lemmas.
- Code that updates a frame in place works on a `DataFrame` class. Its methods
  are specified by the function that gives the new contents:
  - `retrieve_drugs`;
  - the propagation loop;
  - the column assignments of `latest_tasy`.
- The date-column detection loop is a method with loop invariants, proved
  against a function.
- pandas exceptions are `TableError` values inside a `Result`: `KeyError`,
  `ValueError` and `IndexError`. The `AttributeError` of `df.rghc` on a frame
  without that column is folded into the `KeyError` case.
- `apply(axis=1)` over a frame with no rows or no columns probes its function once
  on an empty row instead of calling it per row. Where pandas then raises
  ValueError, the model does too:
  - `retrieve_drugs` on a frame with rows but no source column, or with no rows
    and two or more source columns one of which has no label
    (`Utils.EmptyApplyFails`);
  - `latest_tasy` on an input with no rows and two or more sections
    (`LatestTasy.EmptyJoinFails`);
  - `get_max_redcap_date` with patient ids but no date column
    (`GetUpdateRghc.NoDateColumnFails`).

  On an export with date columns but no patient id, `get_max_redcap_date` gives
  a frame of NaT indexed by the date columns, without `rghc`. The main block's
  merge on `rghc` then raises KeyError (`GetUpdateRghc.MaxRedcapFrame`).
- Log lines are returned as `DateWarning` values.

**Branch order and reachability.**
- The treatment and relapse validators try `%m/%d/%Y` *before* `%d/%m/%y`.
  `SwappedOrderAgrees` proves that trying the two-digit day-first form second
  would read every string the same way, because no string reads both with a
  four-digit and with a two-digit year.
- The month/year branch (mapped to the 15th) exists only in the relapse schema,
  and its pattern keeps it from ever running (`MonthYearUnreachable`).
- `line_number` is any integer, as the schema declares it. Nothing requires it to
  be positive.
- The rewritten dates are written zero-padded, the year to four digits, which is
  what the validators evidently intend. glibc's `strftime` leaves years below
  1000 unpadded; that rendering is modelled beside it and is a finding below.

## Model

| member | source | states |
|---|---|---|
| Strptime.Parse | src/structured_treatment.py:84 | a successful `strptime` reading is a date that exists in the calendar |
| Strptime.PivotYear | src/structured_treatment.py:99-102 | a two-digit year becomes a year in 1969–2068 with the same last two digits |
| Strptime.StrftimeRoundTrip | src/structured_treatment.py:89-91 | what `strftime("%d/%m/%Y")` writes, `strptime("%d/%m/%Y")` reads back as the same date; it matches both date patterns and is canonical |
| Strptime.StrftimeUnpadded | src/structured_treatment.py:90-91 | glibc's rendering equals the padded one from year 1000 on; below it is shorter, and `strptime("%d/%m/%Y")` does not read it |
| Strptime.FourDigitString | src/structured_treatment.py:90-91 | `str` of a four-digit year is its four-digit zero-padding |
| Strptime.YearWidthsExclusive | src/structured_treatment.py:89-109 | no string reads both with a four-digit-year format and with a two-digit-year format |
| Strptime.FirstParse | src/structured_treatment.py:83-117 | the try/except chain: the first format that reads the value, every earlier format failing; nothing exactly when no format reads it |
| Strptime.FirstParseAppend | src/structured_relapse.py:61-69 | a format added at the end of the chain only decides values that no earlier format reads |
| Text.ZeroPad | src/structured_treatment.py:91 | `%02d`/`%04d`: exactly `width` digits whose decimal value is the number |
| Text.NatToString | src/latest_tasy.py:16 | `str(n)`: decimal digits of value `n`, with no leading zero |
| Text.Strip | src/structured_treatment.py:128 | `strip()`: removes exactly the leading and trailing whitespace; the result neither starts nor ends with whitespace |
| Text.StripIdempotent | src/structured_treatment.py:128 | stripping twice is stripping once |
| Text.Lower | src/structured_treatment.py:128 | `lower()` character by character over the modelled character map |
| Text.LowerIsLowered | src/structured_treatment.py:128 | a lower-cased string is left alone by `lower()` |
| Text.Find | src/utils.py:14 | the leftmost occurrence of the pattern, or none at all |
| Text.RStrip | src/utils.py:14 | `rstrip(c)`: the longest prefix that does not end in `c`; everything removed is `c` |
| Text.Split | src/structured_treatment.py:84 | `split(c)`: at least one piece, and no piece contains the separator |
| Text.SplitJoin | src/structured_treatment.py:84 | joining the pieces of a split with the separator gives the string back |
| Calendar.DaysInMonth | src/structured_treatment.py:84 | every month has between 28 and 31 days |
| Calendar.DayNumberOrder | src/get_update_rghc.py:44 | the day count orders valid dates as the calendar does, and two dates have the same count only when they are equal |
| Timestamps.ReadDate | src/get_update_rghc.py:12 | `to_datetime(format="%d/%m/%Y")` on one cell: missing is NaT; text succeeds exactly when it is a NaT string or reads day first with a four-digit year as a date in the timestamp range, and then gives that date; a failure names the cell |
| Timestamps.Latest | src/get_update_rghc.py:21 | `.max()`: NaT exactly for an empty list, otherwise one of the dates that no other date comes after |
| Tables.WithColumn | src/latest_tasy.py:14 | `df[name] = values`: that column holds the values and every other cell is unchanged; an existing column keeps its place and a new one is added last |
| Tables.FilterRows | src/redcap_treatment_labels.py:51 | boolean indexing keeps exactly the rows that satisfy the mask |
| Tables.FilterRowsAppend | src/redcap_treatment_labels.py:51 | filtering keeps the rows' relative order |
| Tables.Filter | src/redcap_treatment_labels.py:48 | a filtered frame keeps its columns and the filtered rows |
| Tables.FirstMissing | src/latest_tasy.py:26 | a requested column the frame lacks; nothing exactly when none is missing |
| Tables.Project | src/redcap_treatment_labels.py:53 | `df[cols]`: KeyError exactly when a requested column is missing; otherwise the same rows cut to `cols`, in that column order |
| Tables.WithCell | src/redcap_treatment_labels.py:25 | `df.at[i, name] = v`: only that cell changes; a new column is added last |
| Tables.RenamedColumns | src/redcap_treatment_labels.py:17 | each column takes its new name in its old place |
| Tables.Renamed | src/redcap_treatment_labels.py:17 | each column keeps its place and its cells under its new name, and a name no column takes reads as missing |
| Tables.Replaced | src/redcap_treatment_labels.py:19 | `replace(m)`: every cell equal to a key of `m` becomes its value, and nothing else changes |
| Tables.DataFrame.constructor | src/redcap_treatment_labels.py:15 | a frame holding the table read |
| Tables.DataFrame.SetColumn | src/latest_tasy.py:14 | the in-place column assignment leaves the `WithColumn` table |
| Tables.DataFrame.SetCell | src/redcap_treatment_labels.py:25 | the in-place cell write leaves the `WithCell` table |
| Tables.DataFrame.Rename | src/redcap_treatment_labels.py:17 | `rename(inplace=True)` leaves the `Renamed` table |
| Tables.DataFrame.Replace | src/redcap_treatment_labels.py:19 | `replace(inplace=True)` leaves the `Replaced` table |
| StructuredTreatment.ValidateDate | src/structured_treatment.py:80-122 | None stays None. A value that reads as dd/mm/YYYY, or that no branch reads, comes back unchanged. Any other value is replaced by the zero-padded dd/mm/YYYY of the date the first reading branch gives |
| StructuredTreatment.DateWarningOf | src/structured_treatment.py:89-121 | a warning is logged exactly when a value is present and does not read as dd/mm/YYYY; a correction warning carries the rewritten value, and an invalid-format warning goes with the value returned as it came |
| StructuredTreatment.ValidateDateIdempotent | src/structured_treatment.py:83-122 | validating the validator's output changes nothing |
| StructuredTreatment.RewritesAreCanonical | src/structured_treatment.py:89-117 | every rewritten value is the canonical dd/mm/YYYY of a valid date and passes both date patterns |
| StructuredTreatment.TreatmentChain | src/structured_treatment.py:83-117 | the chain tries dd/mm/YYYY, mm/dd/YYYY, dd/mm/yy, mm/dd/yy in that order and the first success wins |
| StructuredTreatment.SwappedOrderAgrees | src/structured_treatment.py:83-117 | the order dd/mm/YYYY, dd/mm/yy, mm/dd/YYYY, mm/dd/yy reads every string with the same format and date as the code's order |
| StructuredTreatment.AcceptDateField | src/structured_treatment.py:68-79 | a missing date is accepted as None; otherwise the before-validator's output is accepted when it matches `DATE_REGEX` and reported when it does not |
| StructuredTreatment.AcceptedAsValidated | src/structured_treatment.py:68-79 | once the validator's output is known, the field pattern alone decides |
| StructuredTreatment.CorrectionsAccepted | src/structured_treatment.py:89-117 | a date the validator rewrites always passes the field pattern |
| StructuredTreatment.AcceptDateFieldIdempotent | src/structured_treatment.py:80-122 | an accepted date is accepted again unchanged |
| StructuredTreatment.ValidateDateUnpadded | src/structured_treatment.py:80-122 | with glibc's rendering the validator differs from the padded one exactly on rewrites of a year below 1000, and then writes a value the dd/mm/YYYY branch cannot read and the strict pattern rejects |
| StructuredTreatment.RewrittenReading | src/structured_treatment.py:89-117 | a value the chain reads with a later branch is replaced by the rendering of that branch's date |
| StructuredTreatment.UnpaddedRewriteRejected | src/structured_treatment.py:89-97 | with glibc's rendering "12/25/0999" becomes "25/12/999", which `DATE_REGEX` rejects; padded, the field accepts "25/12/0999" |
| StructuredTreatment.UnpaddedRewriteUnstable | src/structured_treatment.py:89-106 | with glibc's rendering "12/25/0050" becomes "25/12/50", which the pattern accepts and a second validation turns into "25/12/2050" |
| StructuredTreatment.NormalizeTransplantType | src/structured_treatment.py:124-134 | None stays None. After `lower().strip()`, a spelling of autólogo gives "autologo" and a spelling of alogênico gives "alogenico". Any other value comes back lowered and stripped |
| StructuredTreatment.NormalizeTransplantTypeIdempotent | src/structured_treatment.py:124-134 | normalising a normalised transplant type changes nothing |
| StructuredTreatment.TransplantTypeExamples | src/structured_treatment.py:128-133 | "ALOGÊNICO" becomes "alogenico", " Autólogo " becomes "autologo", and "Haploidentico" becomes "haploidentico" |
| StructuredTreatment.LineWith | src/structured_treatment.py:9-65 | a record validates exactly when `line_number` is present and every date field is accepted. It then holds the accepted dates, the drug texts unchanged and the normalised transplant type. Errors are reported otherwise, first of all a missing `line_number` exactly when it is absent |
| StructuredTreatment.LineWithRevalidates | src/structured_treatment.py:9-65 | for a date acceptor that accepts its own output unchanged, validating a validated record's dump gives the same record |
| StructuredTreatment.ValidateLine | src/structured_treatment.py:9-134 | `TreatmentLine(**raw)` validates exactly when `line_number` is present and every date is accepted. The record then holds that `line_number`, the drug texts unchanged, the normalised transplant type, and as each date the validator's output on the raw date, which matches `DATE_REGEX`. The first error names a missing `line_number` exactly when it is absent |
| StructuredTreatment.ValidateLineRevalidates | src/structured_treatment.py:9-134 | `TreatmentLine(**line.model_dump())` gives `line` back |
| StructuredTreatment.LinesWith | src/structured_treatment.py:137-138 | a list validates exactly when every record does, and then yields the records in order. Otherwise every error of every invalid record is reported, located by the record's position, and nothing else is reported |
| StructuredTreatment.ValidateLines | src/structured_treatment.py:137-138 | `TreatmentLines(linhas=...)` validates exactly when every record does. The records keep their order. Each error names an invalid record |
| StructuredTreatment.MonthFirstCorrected | src/structured_treatment.py:89-97 | "12/25/2020" becomes "25/12/2020" |
| StructuredTreatment.DayFirstKept | src/structured_treatment.py:83-87 | "05/03/2021" stays the 5th of March, and the unpadded "5/3/2021" is returned as it came |
| StructuredTreatment.DayFirstAccepted | src/structured_treatment.py:83-87 | the field accepts "05/03/2021" unchanged |
| StructuredTreatment.UnpaddedRejected | src/structured_treatment.py:83-87 | the field rejects "5/3/2021", which passes the validator unchanged but fails `DATE_REGEX` |
| StructuredTreatment.TwoDigitYearPivot | src/structured_treatment.py:99-109 | "01/01/68" becomes "01/01/2068" and "01/01/69" becomes "01/01/1969" |
| StructuredTreatment.UnreadableKept | src/structured_treatment.py:119-122 | "31/02/2020" and "abc" come back unchanged, with nothing raised |
| StructuredTreatment.UnreadableAccepted | src/structured_treatment.py:119-122 | the field accepts the impossible "31/02/2020" and rejects "abc" |
| StructuredRelapse.Corrected | src/structured_relapse.py:61-63 | a month/year reading is moved to the 15th; every other reading is kept |
| StructuredRelapse.ValidateDate | src/structured_relapse.py:20-74 | None stays None. A value that reads as dd/mm/YYYY, or that no branch reads, comes back unchanged. Any other value becomes the canonical dd/mm/YYYY of the first reading branch's date, a month/year on the 15th |
| StructuredRelapse.DateWarningOf | src/structured_relapse.py:29-73 | a warning exactly for a present value that does not read as dd/mm/YYYY; corrections carry the returned value |
| StructuredRelapse.ValidateDateIdempotent | src/structured_relapse.py:23-74 | validating the validator's output changes nothing |
| StructuredRelapse.RelapseChain | src/structured_relapse.py:23-69 | the five-branch chain is the four-branch chain with `%m/%Y` tried last |
| StructuredRelapse.SwappedOrderAgrees | src/structured_relapse.py:23-69 | the order with dd/mm/yy second reads every string with the same format and date as the code's order |
| StructuredRelapse.AgreesWithTreatmentValidator | src/structured_relapse.py:29-59 | on every value that does not read as month/year, the relapse validator gives what the treatment validator gives: the same pivot, and mm/dd/YYYY is tried before dd/mm/yy |
| StructuredRelapse.AcceptRelapseDate | src/structured_relapse.py:14-20 | a missing date is accepted as None; a present one is accepted exactly when the raw value matches `DATE_REGEX`, and the accepted value is then the validator's output |
| StructuredRelapse.MonthYearUnreachable | src/structured_relapse.py:61-69 | no value that matches `DATE_REGEX` reads as month/year, so the fifth branch never decides an accepted relapse date |
| StructuredRelapse.AcceptedRelapseDate | src/structured_relapse.py:14-20 | an accepted relapse date matches `DATE_REGEX` and equals the treatment validator's output for the same value |
| StructuredRelapse.AcceptRelapseDateIdempotent | src/structured_relapse.py:14-74 | an accepted relapse date is accepted again unchanged |
| StructuredRelapse.ValidateRelapse | src/structured_relapse.py:9-20 | `Relapse(**raw)` validates exactly when the `relapse` flag is present and the date is accepted. The errors name the missing flag exactly when it is absent, and name the pattern mismatch exactly when the date is rejected |
| StructuredRelapse.ValidateRelapseRevalidates | src/structured_relapse.py:9-74 | validating a validated relapse's dump gives the same relapse |
| StructuredRelapse.MonthYearExample | src/structured_relapse.py:61-67 | the validator maps "03/2020" to "15/03/2020", yet the field rejects "03/2020" before the validator sees it |
| ExtractTreatments.DateWarningOf | src/extract_treatments.py:83-93 | a warning exactly for a present value that does not read as dd/mm/YYYY, carrying that value |
| ExtractTreatments.AcceptDateField | src/extract_treatments.py:83-93 | the validator returns every value as it came, so a date is accepted exactly when it is missing or matches `^\d{2}/\d{2}/\d{4}$`, and it is accepted unchanged |
| ExtractTreatments.ValidateLine | src/extract_treatments.py:12-105 | a record validates exactly when `line_number` is present and every date matches the strict pattern. The record then holds that `line_number` and the drug texts unchanged, the dates as given, and the transplant type normalised as in the newer schema |
| ExtractTreatments.ValidateLines | src/extract_treatments.py:108-109 | a list validates exactly when every record does, and then holds the validated records in their order. Otherwise there is an error, and each error names an invalid record |
| ExtractTreatments.ValidateLineRevalidates | src/extract_treatments.py:12-105 | validating a validated record's dump gives the same record |
| ExtractTreatments.OlderCleanAcceptedByNewer | src/extract_treatments.py:83-93 | a date the older schema accepts without a warning is accepted unchanged by the newer one |
| ExtractTreatments.OlderCleanLineAcceptedByNewer | src/extract_treatments.py:12-109 | a record the older schema validates without a date warning validates to the same record under the newer schema |
| ExtractTreatments.ImpossibleDateAccepted | src/extract_treatments.py:86-93 | "31/02/2020" is accepted, with only a warning |
| ExtractTreatments.UnpaddedRejected | src/extract_treatments.py:17-64 | "1/2/2020" and the two-digit-year "01/01/68" fail the strict pattern |
| CompareResults.Counts | src/compare_results.py:18 | `groupby(id)[id].count()`: one entry per id present, its number of rows |
| CompareResults.CountPositive | src/compare_results.py:18 | an id has a positive count exactly when some row holds it |
| CompareResults.Difference | src/compare_results.py:17-18 | subtraction aligns on the union of ids; an id one side lacks gets NaN, any other id the absolute difference |
| CompareResults.CompareNumberLines | src/compare_results.py:14-19 | KeyError exactly when a frame lacks the id column. Otherwise the series ranges over the union of ids. An id has a number exactly when both frames hold it, and the number is the absolute difference of its row counts |
| CompareResults.CompareSymmetric | src/compare_results.py:17-19 | swapping the frames gives the same result |
| CompareResults.ZeroIffSameCount | src/compare_results.py:17-19 | an id both frames hold gets 0 exactly when both hold it on the same number of rows |
| CompareResults.MismatchCount | src/compare_results.py:52 | `len(a[a != 0])` counts NaN entries too: it is at most `len(a)`, and 0 exactly when every entry is 0 |
| CompareResults.MismatchesAreDifferences | src/compare_results.py:49-56 | the reported mismatch count is the number of ids whose row counts differ, an id on one side only included |
| CompareResults.HeldKeepsCounts | src/compare_results.py:30 | keeping the checked rows of the extracted patients keeps only extracted ids, each with its full count of checked rows |
| CompareResults.TallyAsWrittenFails | src/compare_results.py:26-30 | as written the main block ends in an error on every input, and on well-formed inputs the error is the missing `rghc` |
| CompareResults.TallyCorrected | src/compare_results.py:26-56 | with `rghc` kept beside the label columns, the tally succeeds exactly when both frames hold `rghc` and the label columns. It then reports one entry per extracted patient, and as mismatches the extracted patients whose number of checked lines differs |
| CompareResults.TallyCounts | src/compare_results.py:30-56 | on a projection that kept `rghc`, the tally succeeds exactly when the checked frame holds the kept columns, and then reports those two counts |
| Utils.DrugColumns | src/utils.py:7 | exactly the columns whose name starts with the prefix |
| Utils.DrugColumnsAppend | src/utils.py:7 | the selection keeps the frame's column order |
| Utils.Truthy | src/utils.py:8-10 | a missing cell is False, and a boolean keeps its value |
| Utils.CastColumns | src/utils.py:8-10 | exactly the selected columns are cast to booleans; the frame's columns and its other cells are unchanged |
| Utils.ChoiceLabel | src/utils.py:14 | a label never ends in ')' |
| Utils.NoLabelIffNoMarker | src/utils.py:14 | a column has no label (IndexError) exactly when its name does not contain "(choice=" |
| Utils.ChoiceLabelOfChoiceColumn | src/utils.py:14 | a column named `question(choice=label)` gives back `label` |
| Utils.ChoiceLabelStripsParentheses | src/utils.py:14 | `rstrip(")")` removes every trailing parenthesis: "Q(choice=A))" gives "A" |
| Utils.RowLabels | src/utils.py:12-17 | it fails exactly when a ticked column has no label, and then names such a column. Otherwise every label comes from a ticked column |
| Utils.RowLabelsAppend | src/utils.py:12-17 | the labels follow the column order |
| Utils.NothingTickedIsEmpty | src/utils.py:12-19 | a row with no ticked column gets the empty list, which joins to "" |
| Utils.CastKeepsLabels | src/utils.py:8-17 | the boolean cast does not change which labels a row gets |
| Utils.DrugLists | src/utils.py:12-19 | it fails exactly when some row's labels fail; otherwise each row holds its labels joined with ", " |
| Utils.RetrieveDrugs | src/utils.py:4-20 | the in-place update leaves the frame `Retrieved` describes |
| Utils.RetrievedFrame | src/utils.py:7-20 | `retrieve_drugs` raises ValueError when the apply over an empty axis cannot be assigned, and otherwise exactly when a ticked prefix column has no label. The prefix columns become booleans, missing cells False. The target holds each row's ticked labels in column order, joined with ", ". The row count and every other column are untouched. The cast stays even when it raises |
| RedcapTreatmentLabels.RecastCells | src/redcap_treatment_labels.py:19 | "Checked" becomes True, "Unchecked" becomes False, and every other cell is unchanged |
| RedcapTreatmentLabels.CarriedIsNearestPreceding | src/redcap_treatment_labels.py:22-27 | the id the loop carries to a row is that of the nearest preceding non-treatment row, or "" when only treatment rows precede it |
| RedcapTreatmentLabels.Propagated | src/redcap_treatment_labels.py:22-27 | the row count and order are kept; non-treatment rows are unchanged; treatment rows get the carried id and keep every other cell |
| RedcapTreatmentLabels.PropagateError | src/redcap_treatment_labels.py:23-27 | the loop raises KeyError exactly when a non-empty frame lacks "Repeat Instrument", or when a frame without `rghc` has a non-treatment row |
| RedcapTreatmentLabels.PropagateRghc | src/redcap_treatment_labels.py:22-27 | the loop over the frame raises exactly then; otherwise it leaves the propagated frame |
| RedcapTreatmentLabels.Excluded | src/redcap_treatment_labels.py:43-48 | KeyError exactly when "Sexo", "Desfecho final do paciente" or `rghc` is missing; otherwise the kept rows are exactly those of patients not listed as unactualised, in their order and with their repetitions |
| RedcapTreatmentLabels.ExcludesWholePatient | src/redcap_treatment_labels.py:44-48 | a patient with some row that records a sex but no final outcome loses every row, treatment lines included |
| RedcapTreatmentLabels.TreatmentLines | src/redcap_treatment_labels.py:51 | KeyError exactly when "Repeat Instrument" is missing; otherwise the treatment rows are kept, columns unchanged |
| RedcapTreatmentLabels.TreatmentLinesInOrder | src/redcap_treatment_labels.py:51 | the kept rows are exactly the treatment rows, in their original relative order |
| RedcapTreatmentLabels.RedcapLabels | src/redcap_treatment_labels.py:15-53 | the steps run in the order of `redcap_labels`, on the frame read and up to the frame written |
| RedcapTreatmentLabels.LabelsShape | src/redcap_treatment_labels.py:51-53 | the written table has exactly the label columns and one row per kept treatment line, holding that line's cells |
| GetUpdateRghc.DateColumnsOf | src/get_update_rghc.py:9-15 | a column is kept exactly when every cell converts: missing, NaT, or a day-first date in the timestamp range |
| GetUpdateRghc.DetectDateColumns | src/get_update_rghc.py:9-15 | the detection loop yields those columns in the frame's order |
| GetUpdateRghc.ColumnDates | src/get_update_rghc.py:17-20 | exactly the dates in one column of a patient's rows, NaT left out |
| GetUpdateRghc.PatientDates | src/get_update_rghc.py:20 | exactly the dates of a patient's date-column cells, every missing value ignored |
| GetUpdateRghc.MaxDates | src/get_update_rghc.py:17-25 | one entry per `rghc` group |
| GetUpdateRghc.MaxRedcapDates | src/get_update_rghc.py:4-25 | `get_max_redcap_date` raises KeyError without `rghc`, and ValueError exactly when there are patient ids but no date column. An export with date columns but no id gives the frame indexed by exactly those columns, without `rghc`. Otherwise there is one entry per patient id present |
| GetUpdateRghc.GetMaxRedcapDate | src/get_update_rghc.py:4-25 | the detection loop and the grouping give the frame `MaxRedcapDates` describes, errors included |
| GetUpdateRghc.MaxIsLatestDate | src/get_update_rghc.py:17-23 | a patient's `max_redcap_date` is no earlier than any of their dates and is one of them; it is NaT exactly when they have none |
| GetUpdateRghc.UpdatedPatients | src/get_update_rghc.py:40-46 | a patient is selected exactly when a consultation joined on `rghc` comes less than 30 days after their latest REDCap date; NaT on either side never qualifies |
| GetUpdateRghc.EarlierVisitIsRecent | src/get_update_rghc.py:44-46 | a consultation on or before the latest REDCap date always qualifies: negative differences are below 30 |
| GetUpdateRghc.ThirtyDayWindow | src/get_update_rghc.py:44-46 | measured from 1 January, 30 January qualifies and 31 January does not |
| GetUpdateRghc.UpdateList | src/get_update_rghc.py:38-46 | the main block fails exactly when the renamed export lacks `rghc`, or when it has patient ids exactly when it has no date column. The ValueError is the second case with ids. Otherwise it selects exactly the patients present with a consultation less than 30 days after their latest date |
| GetUpdateRghc.EmptyExportFailsMerge | src/get_update_rghc.py:17-40 | an export with `rghc` but no rows gives maxima per date column, and the merge at line 40 raises KeyError |
| LatestTasy.ReadDates | src/latest_tasy.py:14 | it fails exactly when some `data` cell does not read, naming that cell; otherwise each row gets its date |
| LatestTasy.Dated | src/latest_tasy.py:14 | ValueError or KeyError exactly when `data` is missing or a cell does not read as a date in the timestamp range. Otherwise `data_dt` holds each row's date and every other cell is kept |
| LatestTasy.DateOf | src/latest_tasy.py:19 | while `data_dt` is datetime64, a row's date is the timestamp in its `data_dt`, or NaT |
| LatestTasy.DateText | src/latest_tasy.py:16 | `astype(str)` on the datetime64 `data_dt` writes ten characters "YYYY-MM-DD", starting with a digit |
| LatestTasy.AsText | src/latest_tasy.py:15-17 | a missing cell and a cell that is exactly "nan" become ""; any other text is kept whole; no result is "nan" |
| LatestTasy.SectionText | src/latest_tasy.py:15-17 | a missing `data_dt` cell is NaT and stays "NaT"; a missing cell of any other section is written as in `AsText` |
| LatestTasy.CleanIdempotent | src/latest_tasy.py:15-17 | cleaning a cleaned cell changes nothing |
| LatestTasy.DatedSectionCells | src/latest_tasy.py:14-17 | named as a section, `data_dt` is written "2021-01-01" and "NaT"; a missing cell elsewhere becomes "" |
| LatestTasy.CleanColumns | src/latest_tasy.py:15-17 | only the section cells change, each to its cleaned text |
| LatestTasy.FirstRepeated | src/latest_tasy.py:15-17 | a section named twice is found exactly when the names are not distinct |
| LatestTasy.Prepared | src/latest_tasy.py:14-17 | the frame after the date and cleaning assignments. Otherwise an error: KeyError for a missing section, ValueError for a section named twice, which then names that section |
| LatestTasy.AheadOrder | src/latest_tasy.py:19 | the descending order of `sort_values` on `data_dt` is irreflexive, transitive, and a key behind another is behind everything ahead of it |
| LatestTasy.ZeroPadOrder | src/latest_tasy.py:16-19 | zero-padded numbers of one width compare as strings as they do as numbers |
| LatestTasy.DateTextOrder | src/latest_tasy.py:16-19 | dates written "YYYY-MM-DD" compare as strings as they do as dates |
| LatestTasy.WrittenKeyOrder | src/latest_tasy.py:15-19 | with `data_dt` among the sections the rows sort by its text: dates still sort as dates, but "NaT" sorts first |
| LatestTasy.CleanText | src/latest_tasy.py:15-17 | the in-place assignment leaves the cleaned frame |
| LatestTasy.Pick | src/latest_tasy.py:19-21 | each patient that has rows gets one kept row: no row of that patient sorts ahead of it by its `data_dt`, date or text, and of equal rows it is the first |
| LatestTasy.Kept | src/latest_tasy.py:19-21 | exactly the kept rows, in increasing order |
| LatestTasy.Finished | src/latest_tasy.py:19-25 | one row per kept row. `person_id` holds its index and `text` its joined sections. Every other cell is the kept row's |
| LatestTasy.Deduplicated | src/latest_tasy.py:19-28 | the kept rows with `text` and `person_id` assigned, cut to the output columns |
| LatestTasy.LatestConsultations | src/latest_tasy.py:13-28 | KeyError without `data`; otherwise the written frame has exactly the output columns |
| LatestTasy.ComputeLatestTasy | src/latest_tasy.py:5-29 | `latest_tasy` without the file reading and writing: it gives exactly what `LatestConsultations` describes, a section named `data_dt` and a repeated section included |
| LatestTasy.LatestErrors | src/latest_tasy.py:14-26 | it raises exactly when `data` is missing, a `data` cell does not read as a date in the timestamp range, a section other than `data_dt` is missing, a section is named twice, `rghc` is missing, or the input has no rows and two or more sections |
| LatestTasy.WrittenOnePerPatient | src/latest_tasy.py:19-21 | on the prepared frame, no two written rows share a patient and every patient has a written row |
| LatestTasy.WrittenIsLatest | src/latest_tasy.py:19-21 | on the prepared frame, no row of a patient sorts ahead of that patient's written row |
| LatestTasy.OneRowPerPatient | src/latest_tasy.py:19-21 | no two written rows share a patient, and every patient of the input, a missing id counting as one, has a written row |
| LatestTasy.KeptRowIsLatest | src/latest_tasy.py:14-21 | a patient's written `data_dt` is no earlier than the date of any of their consultations, NaT coming last |
| LatestTasy.PersonIdIsRowIndex | src/latest_tasy.py:25 | each written row's `person_id` is the index of an input row, and the written row holds that row's patient |
| LatestTasy.KeptRowDates | src/latest_tasy.py:14-26 | a written row holds its input row's `data`, and as `data_dt` the date read from it |
| LatestTasy.TextIsJoinedSections | src/latest_tasy.py:23 | `text` is the kept row's cleaned sections joined by single spaces, in list order |
| LatestTasy.SectionsAreCleaned | src/latest_tasy.py:15-26 | each written section holds the kept row's cleaned cell |
| LatestTasy.EmptySectionsKeepSpaces | src/latest_tasy.py:15-23 | empty sections leave their spaces: "dor", "nan", missing, "febre" join to "dor   febre" |

## Left out

- The language-model calls are not part of this model. They are thin wrappers
  over the provider SDKs:
  - `extract_treatment_lines` in src/extract_treatments.py;
  - `call_llm_structured` in src/api_calls.py;
  - `hf_parse` in src/hf_prompting.py.
- The batch drivers are not part of this model either: src/api_pipeline.py,
  src/tmo_pipeline.py, src/extract_pipeline.py and src/openai_extract.py. So
  are the `__main__` blocks, except the two the model follows: the tally of
  src/compare_results.py and the selection of src/get_update_rghc.py.
- I/O is a parameter or is dropped:
  - reading and writing CSV and pickle files, `print` and `tqdm` are left out;
  - the frame read is the input, and the frame written is the result;
  - `logging.warning` becomes a returned `DateWarning`, and its message text is
    not modelled.
- The drug preprocessing at src/compare_results.py:33-44 is left out. It calls
  `post_process_drugs` and `sort_drugs` with `drugs_ref`, which are imported but
  defined nowhere in the repository. It touches only the drug columns, so the
  line counts do not depend on it.
- Pydantic is modelled only as the order before-validator → pattern →
  after-validator. Also left out:
  - the layout of its `ValidationError`; errors are a list of field errors;
  - its coercion of JSON values; a raw record is already typed.
- Floating-point cells are not modelled: `Cell` has no float. A pandas integer
  column holding NaN becomes float, so `str` would write "1.0" where the model
  writes "1".
- `Text.Lower` covers only A–Z, Ê and Ó. `strptime` digits are ASCII only,
  whereas Python's `\d` also matches other Unicode digits. The same holds for
  `DATE_REGEX` and the strict pattern (`MatchesDateRegex`). pydantic's pattern
  check also takes Unicode digits for `\d`, so a date written in, say,
  Arabic-Indic digits passes the source's field check and fails the model's.
- Strptime.StrftimeRoundTrip: stated for the zero-padded rendering the rest of
  the model uses. With glibc's `strftime` a year below 1000 is written unpadded,
  and for such a year the round trip fails (see Findings).
- StructuredTreatment.RewritesAreCanonical: with glibc's rendering a rewrite of a
  year below 1000 is not canonical and may fail `DATE_REGEX`
  (`UnpaddedRewriteRejected`).
- StructuredTreatment.CorrectionsAccepted: with glibc's rendering the field
  rejects the rewrite "25/12/999" of "12/25/0999" (`UnpaddedRewriteRejected`).
- StructuredTreatment.ValidateDateIdempotent and
  StructuredTreatment.AcceptDateFieldIdempotent hold for the padded rendering.
  With glibc's, "12/25/0050" is rewritten to "25/12/50" and then to "25/12/2050"
  (`UnpaddedRewriteUnstable`).
- StructuredRelapse.ValidateDate: the rewrite is the canonical dd/mm/YYYY only
  for the padded rendering. With glibc's a year below 1000 is written unpadded,
  as in `StructuredTreatment.ValidateDateUnpadded`.
- StructuredRelapse.ValidateDateIdempotent: holds for the padded rendering. With
  glibc's, "12/25/0050" is rewritten to "25/12/50" and then to "25/12/2050", as the
  two validators agree off the month/year branch.
- StructuredRelapse.AcceptedRelapseDate: with glibc's rendering the relapse field
  accepts "12/25/0999", whose pattern check comes first, as "25/12/999", which
  does not match `DATE_REGEX`.
- StructuredRelapse.AcceptRelapseDateIdempotent: with glibc's rendering that
  accepted "25/12/999" is rejected when validated again.
- StructuredRelapse.ValidateRelapseRevalidates: with glibc's rendering a relapse
  dated with a year below 1000 dumps a date that does not validate again. Only the
  treatment schema's validator has an unpadded counterpart in the model
  (`StructuredTreatment.ValidateDateUnpadded`).
- Timestamps exist only at midnight. A `Stamp` holding an invalid date renders as
  "NaT" and reads as an error.
- Tables.Renamed: when two columns are renamed to one name, the cell guarantee is
  stated only for renamings that keep names distinct. pandas would hold two
  columns of that name, which a row map cannot.
- RedcapTreatmentLabels.PropagateRghc: a frame on which the loop raises is
  reported before any row is written. The source writes rows until the error.
  The frame is local to `redcap_labels` and the error ends it, so those rows are
  never observed.
- GetUpdateRghc.UpdateList: the result is the set of selected patients. The order
  and duplicates of `update_rghc_list` are not modelled.
- GetUpdateRghc.UpdateList: the ISO `%Y-%m-%d` parse of the TASY `data_dt` at
  src/get_update_rghc.py:41-43 is left out. Consultation dates come already read,
  as `Visit` values.
- GetUpdateRghc.MaxDates: with no date column it gives every patient NaT.
  `MaxRedcapDates` does not use it there. It reports the ValueError that
  pandas' empty-result rule for `apply` raises on a frame of groups with no
  column.
- LatestTasy.Pick: of several rows of a patient with the same `data_dt`, the
  model keeps the first. The source's sort is not stable, so which one it keeps
  is unspecified. The contract says only that no row of the patient sorts ahead.
- LatestTasy.Kept: the written rows are in input order, where the source writes
  them in descending date order.
- LatestTasy.OneRowPerPatient, LatestTasy.KeptRowIsLatest,
  LatestTasy.PersonIdIsRowIndex, LatestTasy.KeptRowDates,
  LatestTasy.TextIsJoinedSections, LatestTasy.SectionsAreCleaned: these are
  stated only for `text_columns` that do not name `rghc`, `data` or `data_dt`, as
  each requires says. If a section shared a name with those columns, the
  cleaning would overwrite it. The frame the model gives for such sections is
  still the source's. A `data_dt` section is written as dates and "NaT", and the
  rows then sort by that text (`WrittenKeyOrder`).
- LatestTasy.DateText: pandas writes a datetime64 column as dates only when every
  value of it falls at midnight. Every modelled timestamp does.

## Findings

| source | as written | input that shows it | evidently intended | confidence | as-written member | corrected member |
|---|---|---|---|---|---|---|
| src/compare_results.py:26-30 | both frames are cut to `label_cols`, which does not contain `rghc`, before `api_df.rghc` and `check_df.rghc` are read | any two frames holding `rghc` and every label column: line 30 raises on the missing `rghc`, and the line-count comparison never runs | keep `rghc` beside the label columns, so that the checked rows can be matched to the extracted patients and the line counts compared | medium, not executed | CompareResults.TallyAsWrittenFails | CompareResults.TallyCorrected |
| src/structured_treatment.py:89-117 | the rewrite is `dt.strftime("%d/%m/%Y")`, and glibc's `strftime` writes a year below 1000 without leading zeros | "12/25/0999" becomes "25/12/999", which `DATE_REGEX` rejects (`UnpaddedRewriteRejected`); "12/25/0050" becomes "25/12/50", which the pattern accepts and a second validation turns into "25/12/2050" (`UnpaddedRewriteUnstable`) | write the corrected date as zero-padded DD/MM/YYYY, the form its log messages name, so that every rewrite is canonical and validating again changes nothing | low, not executed; depends on the C library and on whether the CPython build pads `%Y` itself | StructuredTreatment.ValidateDateUnpadded | StructuredTreatment.ValidateDate |
