/** The latest TASY consultation of each patient (src/latest_tasy.py): consultation
    dates read day first, text sections cleaned and joined into one `text`, one row
    kept per patient, and a `person_id` for de-identification. */
module LatestTasy {
  import opened Wrappers
  import opened Text
  import opened Calendar
  import opened Tables
  import opened Config
  import opened Timestamps
  import Strptime

  const Data: string := "data"
  const DataDt: string := "data_dt"
  const TextColumn: string := "text"
  const PersonId: string := "person_id"

  /** The columns written out: the patient, the de-identified id, both dates, the
      joined text and then the sections themselves. */
  function OutputColumns(textColumns: seq<string>): seq<string>
  {
    [PatientId, PersonId, Data, DataDt, TextColumn] + textColumns
  }

  // ---------------------------------------------------------------------------
  // data_dt

  /** `pd.to_datetime(source_df.data, format="%d/%m/%Y")` over the rows: the date of
      each row, or the error of the first unreadable one. */
  function ReadDates(rows: seq<Row>, c: string): (r: Result<seq<Option<Date>>, TableError>)
    ensures r.Ok? <==> forall i :: 0 <= i < |rows| ==> ReadDate(Get(rows[i], c)).Ok?
    ensures r.Ok? ==> |r.value| == |rows| && forall i :: 0 <= i < |rows| ==> r.value[i] == ReadDate(Get(rows[i], c)).value
    ensures r.Err? ==> exists i :: 0 <= i < |rows| && ReadDate(Get(rows[i], c)) == Err(r.error)
  {
    if |rows| == 0 then Ok([])
    else
      assert forall i :: 1 <= i < |rows| ==> rows[i] == rows[1..][i - 1];
      match ReadDate(Get(rows[0], c))
      case Err(e) => Err(e)
      case Ok(d) =>
        (match ReadDates(rows[1..], c)
         case Err(e) =>
           assert exists i :: 0 <= i < |rows[1..]| && ReadDate(Get(rows[1..][i], c)) == Err(e);
           Err(e)
         case Ok(ds) => Ok([d] + ds))
  }

  /** A date as a frame cell; NaT is missing. */
  function AsStamp(d: Option<Date>): Value
  {
    match d
    case None => None
    case Some(day) => Some(Stamp(day))
  }

  /** The `data_dt` of a row while that column is datetime64: the timestamp, or NaT. */
  function DateOf(r: Row): (d: Option<Date>)
    ensures AsStamp(d) == Get(r, DataDt) || d.None?
  {
    match Get(r, DataDt)
    case Some(Stamp(day)) => Some(day)
    case _ => None
  }

  // ---------------------------------------------------------------------------
  // The text sections

  /** `astype(str)` on a datetime64 column whose values all fall at midnight writes
      dates only, as "YYYY-MM-DD". */
  function DateText(d: Date): (s: string)
    requires IsValid(d)
    ensures |s| == 10 && IsDigit(s[0]) && s[4] == '-' && s[7] == '-'
  {
    ZeroPad(d.year, 4) + ("-" + (ZeroPad(d.month, 2) + ("-" + ZeroPad(d.day, 2))))
  }

  /** A section cell after `.astype(str).fillna("").replace("nan", "")`: a missing
      cell (NaN, whose text is "nan") and a cell that is exactly "nan" become "",
      any other text is kept whole, other values are written out. Only the
      datetime64 `data_dt` column holds timestamps, and they are written as dates. */
  function AsText(v: Value): (r: string)
    ensures r == "" <==> v.None? || v == Some(Str("nan")) || v == Some(Str(""))
    ensures v.Some? && v.value.Str? && v.value.s != "nan" ==> r == v.value.s
    ensures r != "nan"
  {
    match v
    case None => ""
    case Some(Str(s)) => if s == "nan" then "" else s
    case Some(Int(i)) =>
      var r := IntToString(i);
      assert r[0] == '-' || IsDigit(r[0]);
      r
    case Some(Bool(b)) => if b then "True" else "False"
    case Some(Stamp(d)) =>
      if IsValid(d) then
        var r := DateText(d);
        assert IsDigit(r[0]);
        r
      else "NaT"
  }

  /** The text of cell `v` of section `c`. `data_dt`, set just before the cleaning,
      is the one datetime64 column: its missing cells are NaT, written "NaT", which
      the cleaning keeps. In any other column a missing cell is NaN and ends up "". */
  function SectionText(c: string, v: Value): (r: string)
    ensures c != DataDt || v.Some? ==> r == AsText(v)
    ensures c == DataDt && v.None? ==> r == "NaT"
    ensures r != "nan"
  {
    if c == DataDt && v.None? then "NaT" else AsText(v)
  }

  /** The cleaned cell of section `c`. */
  function Clean(c: string, v: Value): Value
  {
    Some(Str(SectionText(c, v)))
  }

  /** Cleaning twice is cleaning once. */
  lemma CleanIdempotent(c: string, v: Value)
    ensures Clean(c, Clean(c, v)) == Clean(c, v)
  {
  }

  /** `df[cols] = df[cols].astype(str).fillna("").replace("nan", "")`, one column
      after the other. */
  function CleanColumns(t: Table, cols: seq<string>): (r: Table)
    ensures |r.rows| == |t.rows|
    ensures (forall c :: c in cols ==> c in t.columns) ==> r.columns == t.columns
    ensures forall i, c :: 0 <= i < |t.rows| ==>
      Get(r.rows[i], c) == if c in cols then Clean(c, Get(t.rows[i], c)) else Get(t.rows[i], c)
  {
    if |cols| == 0 then t
    else
      var init, last := cols[..|cols| - 1], cols[|cols| - 1];
      assert forall c :: c in cols <==> c in init || c == last by {
        assert cols == init + [last];
      }
      var prev := CleanColumns(t, init);
      assert forall c :: c in init ==> c in cols;
      assert forall i :: 0 <= i < |t.rows| ==> Clean(last, Get(prev.rows[i], last)) == Clean(last, Get(t.rows[i], last)) by {
        forall i | 0 <= i < |t.rows|
          ensures Clean(last, Get(prev.rows[i], last)) == Clean(last, Get(t.rows[i], last))
        {
          var x := Get(t.rows[i], last);
          assert Get(prev.rows[i], last) == if last in init then Clean(last, x) else x;
          CleanIdempotent(last, x);
        }
      }
      WithColumn(prev, last, seq(|prev.rows|, i requires 0 <= i < |prev.rows| => Clean(last, Get(prev.rows[i], last))))
  }

  /** No section is named twice. */
  predicate Distinct(cols: seq<string>)
  {
    forall a, b :: 0 <= a < b < |cols| ==> cols[a] != cols[b]
  }

  /** The first section named again later in `cols`. `df[cols] = ...` with a repeated
      name assigns, under that name, a frame of two or more columns to the one
      column the frame has, and pandas raises ValueError. */
  function FirstRepeated(cols: seq<string>): (r: Option<string>)
    ensures r.None? <==> Distinct(cols)
    ensures r.Some? ==> exists a, b :: 0 <= a < b < |cols| && cols[a] == r.value && cols[b] == r.value
  {
    if |cols| == 0 then None
    else if cols[0] in cols[1..] then
      var b :| 0 <= b < |cols[1..]| && cols[1..][b] == cols[0];
      assert cols[b + 1] == cols[0];
      Some(cols[0])
    else
      var r := FirstRepeated(cols[1..]);
      assert forall a :: 1 <= a < |cols| ==> cols[a] == cols[1..][a - 1];
      if r.Some? then
        var a, b :| 0 <= a < b < |cols[1..]| && cols[1..][a] == r.value && cols[1..][b] == r.value;
        assert cols[a + 1] == r.value && cols[b + 1] == r.value;
        r
      else r
  }

  // ---------------------------------------------------------------------------
  // The sort key

  /** What `sort_values(by=["data_dt"])` orders a row by: its date while `data_dt`
      is datetime64, its text once `data_dt` is itself a cleaned section. */
  datatype SortKey = Stamped(date: Option<Date>) | Written(text: string)

  function KeyOf(r: Row): SortKey
  {
    match Get(r, DataDt)
    case Some(Str(s)) => Written(s)
    case _ => Stamped(DateOf(r))
  }

  /** String order, one code point after the other, as Python compares `str`. */
  predicate TextBefore(x: string, y: string)
  {
    if |x| == 0 then |y| > 0
    else |y| > 0 && (x[0] < y[0] || (x[0] == y[0] && TextBefore(x[1..], y[1..])))
  }

  /** Date `a` sorts ahead of date `b` when descending: a later date first, NaT last. */
  predicate LaterDate(a: Option<Date>, b: Option<Date>)
  {
    a.Some? && (b.None? || Before(b.value, a.value))
  }

  /** The rank of a key's kind. One column never holds dates and texts together, so
      the rank only keeps the order total: a date, then a text, then NaT. */
  function Tier(k: SortKey): nat
  {
    match k
    case Stamped(d) => if d.Some? then 2 else 0
    case Written(_) => 1
  }

  /** Key `a` sorts ahead of key `b` in `sort_values(..., ascending=False)`: dates by
      `LaterDate`, texts in reverse string order. */
  predicate Ahead(a: SortKey, b: SortKey)
  {
    Tier(a) > Tier(b)
    || (Tier(a) == Tier(b) && (if a.Stamped? then LaterDate(a.date, b.date) else TextBefore(b.text, a.text)))
  }

  lemma {:induction false} TextBeforeIrreflexive(x: string)
    ensures !TextBefore(x, x)
    decreases |x|
  {
    if |x| > 0 {
      TextBeforeIrreflexive(x[1..]);
    }
  }

  lemma {:induction false} TextBeforeTransitive(x: string, y: string, z: string)
    requires TextBefore(x, y) && TextBefore(y, z)
    ensures TextBefore(x, z)
    decreases |x|
  {
    if |x| > 0 && x[0] == y[0] && y[0] == z[0] {
      TextBeforeTransitive(x[1..], y[1..], z[1..]);
    }
  }

  lemma {:induction false} TextBeforeTotal(x: string, y: string)
    ensures x == y || TextBefore(x, y) || TextBefore(y, x)
    decreases |x|
  {
    if |x| > 0 && |y| > 0 && x[0] == y[0] {
      TextBeforeTotal(x[1..], y[1..]);
      if x[1..] == y[1..] {
        assert x == [x[0]] + x[1..] && y == [y[0]] + y[1..];
      }
    }
  }

  /** `Ahead` is a strict weak order, as a sort needs: irreflexive, transitive, and a
      key behind another is behind everything ahead of it. */
  lemma AheadOrder(a: SortKey, b: SortKey, c: SortKey)
    ensures !Ahead(a, a)
    ensures Ahead(a, b) && Ahead(b, c) ==> Ahead(a, c)
    ensures Ahead(a, c) && !Ahead(b, c) ==> Ahead(a, b)
  {
    if a.Written? {
      TextBeforeIrreflexive(a.text);
    }
    if a.Written? && b.Written? && c.Written? {
      var x, y, z := a.text, b.text, c.text;
      if TextBefore(y, x) && TextBefore(z, y) {
        TextBeforeTransitive(z, y, x);
      }
      if TextBefore(z, x) && !TextBefore(z, y) {
        TextBeforeTotal(x, y);
        if TextBefore(x, y) {
          TextBeforeTransitive(z, x, y);
        }
      }
    }
  }

  /** Comparing strings that start with parts of one length: the first parts decide
      unless they are equal. */
  lemma {:induction false} TextBeforeAppend(x1: string, y1: string, x2: string, y2: string)
    requires |x1| == |x2|
    ensures TextBefore(x1 + y1, x2 + y2) <==> TextBefore(x1, x2) || (x1 == x2 && TextBefore(y1, y2))
    decreases |x1|
  {
    if |x1| == 0 {
      assert x1 + y1 == y1 && x2 + y2 == y2;
    } else {
      assert (x1 + y1)[0] == x1[0] && (x2 + y2)[0] == x2[0];
      assert (x1 + y1)[1..] == x1[1..] + y1 && (x2 + y2)[1..] == x2[1..] + y2;
      TextBeforeAppend(x1[1..], y1, x2[1..], y2);
      assert x1 == x2 <==> x1[0] == x2[0] && x1[1..] == x2[1..] by {
        if x1[0] == x2[0] && x1[1..] == x2[1..] {
          assert x1 == [x1[0]] + x1[1..] && x2 == [x2[0]] + x2[1..];
        }
      }
    }
  }

  /** Zero-padded numbers of one width compare as strings as they do as numbers. */
  lemma {:induction false} ZeroPadOrder(m: nat, n: nat, width: nat)
    requires m < Pow10(width) && n < Pow10(width)
    ensures TextBefore(ZeroPad(m, width), ZeroPad(n, width)) <==> m < n
    ensures ZeroPad(m, width) == ZeroPad(n, width) <==> m == n
    decreases width
  {
    if width == 0 {
    } else {
      assert Pow10(width) == 10 * Pow10(width - 1);
      assert m / 10 < Pow10(width - 1) && n / 10 < Pow10(width - 1);
      ZeroPadOrder(m / 10, n / 10, width - 1);
      var fm, fn := ZeroPad(m / 10, width - 1), ZeroPad(n / 10, width - 1);
      var dm, dn := [Digit(m % 10)], [Digit(n % 10)];
      assert ZeroPad(m, width) == fm + dm && ZeroPad(n, width) == fn + dn;
      TextBeforeAppend(fm, dm, fn, dn);
      assert TextBefore(dm, dn) <==> m % 10 < n % 10 by {
        assert dm[1..] == [] && dn[1..] == [];
      }
      assert fm + dm == fn + dn <==> fm == fn && dm == dn by {
        if fm + dm == fn + dn {
          assert (fm + dm)[..|fm|] == fm && (fn + dn)[..|fn|] == fn;
          assert (fm + dm)[|fm|] == dm[0] && (fn + dn)[|fn|] == dn[0];
        }
      }
      assert Digit(m % 10) == Digit(n % 10) <==> m % 10 == n % 10 by {
        assert DigitValue(Digit(m % 10)) == m % 10 && DigitValue(Digit(n % 10)) == n % 10;
      }
    }
  }

  /** Dates written as "YYYY-MM-DD" compare as strings as they do as dates. */
  lemma DateTextOrder(a: Date, b: Date)
    requires IsValid(a) && IsValid(b)
    ensures TextBefore(DateText(a), DateText(b)) <==> Before(a, b)
  {
    var ya, ma, da := ZeroPad(a.year, 4), ZeroPad(a.month, 2), ZeroPad(a.day, 2);
    var yb, mb, db := ZeroPad(b.year, 4), ZeroPad(b.month, 2), ZeroPad(b.day, 2);
    assert Pow10(4) == 10000 && Pow10(2) == 100;
    ZeroPadOrder(a.year, b.year, 4);
    ZeroPadOrder(a.month, b.month, 2);
    ZeroPadOrder(a.day, b.day, 2);
    TextBeforeAppend(ya, "-" + (ma + ("-" + da)), yb, "-" + (mb + ("-" + db)));
    TextBeforeAppend("-", ma + ("-" + da), "-", mb + ("-" + db));
    TextBeforeAppend(ma, "-" + da, mb, "-" + db);
    TextBeforeAppend("-", da, "-", db);
    TextBeforeIrreflexive("-");
  }

  /** 1 January 2021 is written "2021-01-01". */
  lemma NewYear2021Text()
    ensures IsValid(Date(2021, 1, 1)) && DateText(Date(2021, 1, 1)) == "2021-01-01"
  {
    Strptime.FourDigitPad(2021);
    Strptime.TwoDigitPad(1);
    Strptime.DigitChars();
    assert 2021 / 10 / 10 / 10 == 2 && 2021 / 10 / 10 % 10 == 0 && 2021 / 10 % 10 == 2 && 2021 % 10 == 1;
  }

  /** Named as a section, `data_dt` is written as dates, and NaT as "NaT"; a missing
      cell of any other section becomes empty. */
  lemma DatedSectionCells()
    ensures Clean(DataDt, AsStamp(Some(Date(2021, 1, 1)))) == Some(Str("2021-01-01"))
    ensures Clean(DataDt, AsStamp(None)) == Some(Str("NaT"))
    ensures Clean("evolucoes_queixas", None) == Some(Str(""))
  {
    NewYear2021Text();
  }

  /** With `data_dt` among the sections the rows sort by its text. Dates still sort
      as dates, but "NaT", which comes after every digit, now sorts first. */
  lemma WrittenKeyOrder(a: Date, b: Date)
    requires IsValid(a) && IsValid(b)
    ensures Ahead(Written(DateText(a)), Written(DateText(b))) <==> LaterDate(Some(a), Some(b))
    ensures Ahead(Written("NaT"), Written(DateText(a)))
  {
    DateTextOrder(b, a);
    assert DateText(a)[0] < "NaT"[0];
  }

  // ---------------------------------------------------------------------------
  // One row per patient

  /** The row `drop_duplicates(subset=["rghc"])` keeps for patient `v` after the sort:
      one with no row of that patient ahead of it; of several with the same date,
      the model keeps the first. */
  function Pick(rows: seq<Row>, v: Value): (p: Option<nat>)
    ensures p.None? <==> forall i :: 0 <= i < |rows| ==> Get(rows[i], PatientId) != v
    ensures p.Some? ==> p.value < |rows| && Get(rows[p.value], PatientId) == v
    ensures p.Some? ==> forall j :: 0 <= j < |rows| && Get(rows[j], PatientId) == v ==> !Ahead(KeyOf(rows[j]), KeyOf(rows[p.value]))
    ensures p.Some? ==> forall j :: 0 <= j < p.value && Get(rows[j], PatientId) == v ==> Ahead(KeyOf(rows[p.value]), KeyOf(rows[j]))
  {
    if |rows| == 0 then None
    else
      var init, last := rows[..|rows| - 1], |rows| - 1;
      assert forall i :: 0 <= i < |init| ==> init[i] == rows[i];
      var p := Pick(init, v);
      if Get(rows[last], PatientId) == v && (p.None? || Ahead(KeyOf(rows[last]), KeyOf(rows[p.value])))
      then
        assert p.Some? ==> forall j :: 0 <= j < |rows| ==>
          && (!Ahead(KeyOf(rows[j]), KeyOf(rows[last])) || Ahead(KeyOf(rows[j]), KeyOf(rows[p.value])))
          && (Ahead(KeyOf(rows[p.value]), KeyOf(rows[j])) ==> Ahead(KeyOf(rows[last]), KeyOf(rows[j])))
          && (!Ahead(KeyOf(rows[j]), KeyOf(rows[p.value])) ==> Ahead(KeyOf(rows[last]), KeyOf(rows[j])))
        by {
          if p.Some? {
            forall j | 0 <= j < |rows|
              ensures !Ahead(KeyOf(rows[j]), KeyOf(rows[last])) || Ahead(KeyOf(rows[j]), KeyOf(rows[p.value]))
              ensures Ahead(KeyOf(rows[p.value]), KeyOf(rows[j])) ==> Ahead(KeyOf(rows[last]), KeyOf(rows[j]))
              ensures !Ahead(KeyOf(rows[j]), KeyOf(rows[p.value])) ==> Ahead(KeyOf(rows[last]), KeyOf(rows[j]))
            {
              PickStepOrder(KeyOf(rows[j]), KeyOf(rows[last]), KeyOf(rows[p.value]));
            }
          }
        }
        AheadOrder(KeyOf(rows[last]), KeyOf(rows[last]), KeyOf(rows[last]));
        Some(last)
      else p
  }

  /** A key ahead of the one kept so far, put in its place, is ahead of every key
      that was behind it or on a par with it, and nothing it ranks behind was
      behind the first. */
  lemma PickStepOrder(kj: SortKey, kl: SortKey, kp: SortKey)
    requires Ahead(kl, kp)
    ensures !Ahead(kj, kl) || Ahead(kj, kp)
    ensures Ahead(kp, kj) ==> Ahead(kl, kj)
    ensures !Ahead(kj, kp) ==> Ahead(kl, kj)
  {
    AheadOrder(kj, kl, kp);
    AheadOrder(kl, kj, kp);
    AheadOrder(kl, kp, kj);
  }

  /** Row `i` is the one kept for its patient. */
  predicate IsKept(rows: seq<Row>, i: nat)
    requires i < |rows|
  {
    Pick(rows, Get(rows[i], PatientId)) == Some(i)
  }

  /** The indices among the first `k` whose mark is set, in order. */
  function MarkedUpTo(marks: seq<bool>, k: nat): (r: seq<nat>)
    requires k <= |marks|
    ensures forall a :: 0 <= a < |r| ==> r[a] < k
    ensures forall i :: 0 <= i < k ==> (i in r <==> marks[i])
    ensures forall a, b :: 0 <= a < b < |r| ==> r[a] < r[b]
  {
    if k == 0 then []
    else
      var prev := MarkedUpTo(marks, k - 1);
      if marks[k - 1] then
        var r := prev + [k - 1];
        assert forall i :: i in r <==> i in prev || i == k - 1;
        assert forall a :: 0 <= a < |prev| ==> r[a] == prev[a];
        r
      else prev
  }

  /** The indices of the kept rows, in order. */
  function Kept(rows: seq<Row>): (r: seq<nat>)
    ensures forall a :: 0 <= a < |r| ==> r[a] < |rows|
    ensures forall i :: 0 <= i < |rows| ==> (i in r <==> IsKept(rows, i))
    ensures forall a, b :: 0 <= a < b < |r| ==> r[a] < r[b]
  {
    MarkedUpTo(seq(|rows|, i requires 0 <= i < |rows| => IsKept(rows, i)), |rows|)
  }

  /** `df[text_columns].apply(lambda row: " ".join(row.values), axis=1)` for one row. */
  function JoinedText(r: Row, cols: seq<string>): string
  {
    Join(seq(|cols|, j requires 0 <= j < |cols| => AsText(Get(r, cols[j]))), " ")
  }

  /** The deduplicated frame with `text` and `person_id` added. */
  function Finished(t: Table, cols: seq<string>): (r: Table)
    ensures |r.rows| == |Kept(t.rows)|
    ensures forall c :: c in r.columns <==> c in t.columns || c == TextColumn || c == PersonId
    ensures forall k, c :: 0 <= k < |r.rows| ==> (Get(r.rows[k], c) ==
      if c == PersonId then Some(Int(Kept(t.rows)[k]))
      else if c == TextColumn then Some(Str(JoinedText(t.rows[Kept(t.rows)[k]], cols)))
      else Get(t.rows[Kept(t.rows)[k]], c))
  {
    var kept := Kept(t.rows);
    assert forall k :: 0 <= k < |kept| ==> kept[k] in kept;
    var df := Table(t.columns, seq(|kept|, k requires 0 <= k < |kept| => t.rows[kept[k]]));
    var withText := WithColumn(df, TextColumn, seq(|kept|, k requires 0 <= k < |kept| => Some(Str(JoinedText(df.rows[k], cols)))));
    WithColumn(withText, PersonId, seq(|kept|, k requires 0 <= k < |kept| => Some(Int(kept[k]))))
  }

  /** The date read from row `j`'s `data`; NaT when it cannot be read. */
  function InputDate(input: Table, j: nat): Option<Date>
    requires j < |input.rows|
  {
    match ReadDate(Get(input.rows[j], Data))
    case Ok(d) => d
    case Err(_) => None
  }

  /** The frame after `source_df["data_dt"] = pd.to_datetime(source_df.data, ...)`:
      an error when `data` is missing or one of its cells is not a day-first date. */
  function Dated(input: Table): (r: Result<Table, TableError>)
    ensures r.Err? <==> Data !in input.columns || exists i :: 0 <= i < |input.rows| && ReadDate(Get(input.rows[i], Data)).Err?
    ensures Data !in input.columns ==> r == Err(MissingColumn(Data))
    ensures r.Ok? ==> |r.value.rows| == |input.rows|
    ensures r.Ok? ==> r.value.columns == if DataDt in input.columns then input.columns else input.columns + [DataDt]
    ensures r.Ok? ==> forall i, c :: 0 <= i < |input.rows| ==>
      Get(r.value.rows[i], c) == if c == DataDt then AsStamp(InputDate(input, i)) else Get(input.rows[i], c)
  {
    if Data !in input.columns then Err(MissingColumn(Data))
    else
      match ReadDates(input.rows, Data)
      case Err(e) => Err(e)
      case Ok(ds) => Ok(WithColumn(input, DataDt, seq(|ds|, i requires 0 <= i < |ds| => AsStamp(ds[i]))))
  }

  /** The frame after the text sections are cleaned as well: an error, in addition,
      when a section is missing (KeyError) or named twice (ValueError). */
  function Prepared(input: Table, cols: seq<string>): (r: Result<Table, TableError>)
    ensures r.Err? <==> Dated(input).Err? || (exists c :: c in cols && c !in Dated(input).value.columns) || !Distinct(cols)
    ensures Dated(input).Ok? && (forall c :: c in cols ==> c in Dated(input).value.columns) && !Distinct(cols) ==>
              r.Err? && r.error.ShapeMismatch? && r.error.column in cols
    ensures r.Ok? ==> |r.value.rows| == |input.rows| && r.value.columns == Dated(input).value.columns
    ensures r.Ok? ==> forall i, c :: 0 <= i < |input.rows| ==>
      Get(r.value.rows[i], c) == if c in cols then Clean(c, Get(Dated(input).value.rows[i], c)) else Get(Dated(input).value.rows[i], c)
  {
    match Dated(input)
    case Err(e) => Err(e)
    case Ok(t1) =>
      (match FirstMissing(t1, cols)
       case Some(c) => Err(MissingColumn(c))
       case None =>
         (match FirstRepeated(cols)
          case Some(c) =>
            assert c in cols by {
              var a, b :| 0 <= a < b < |cols| && cols[a] == c && cols[b] == c;
            }
            Err(ShapeMismatch(c))
          case None => Ok(CleanColumns(t1, cols))))
  }

  /** `df[text_columns].apply(..., axis=1)` on a frame without rows probes the lambda
      once on a row of NaN, which `" ".join` refuses; pandas then hands back the
      frame of sections itself, and `df["text"] = ...` raises ValueError when that
      frame has two or more columns. */
  predicate EmptyJoinFails(rows: nat, cols: seq<string>)
  {
    rows == 0 && |cols| >= 2
  }

  /** `latest_tasy(input, ...)` without the reading and writing of files: the frame it
      writes, or the error it raises. */
  function LatestConsultations(input: Table, cols: seq<string>): (r: Result<Table, TableError>)
    ensures Data !in input.columns ==> r == Err(MissingColumn(Data))
    ensures r.Ok? ==> r.value.columns == OutputColumns(cols)
  {
    match Prepared(input, cols)
    case Err(e) => Err(e)
    case Ok(t) =>
      if PatientId !in t.columns then Err(MissingColumn(PatientId))
      else if EmptyJoinFails(|t.rows|, cols) then Err(ShapeMismatch(TextColumn))
      else Project(Finished(t, cols), OutputColumns(cols))
  }

  /** The cleaning assignment on the frame. */
  method CleanText(source: DataFrame, textColumns: seq<string>)
    modifies source
    ensures source.Snapshot() == CleanColumns(old(source.Snapshot()), textColumns)
  {
    ghost var t := source.Snapshot();
    for k := 0 to |textColumns|
      invariant source.Snapshot() == CleanColumns(t, textColumns[..k])
    {
      assert textColumns[..k + 1] == textColumns[..k] + [textColumns[k]];
      var rows, c := source.rows, textColumns[k];
      source.SetColumn(c, seq(|rows|, i requires 0 <= i < |rows| => Clean(c, Get(rows[i], c))));
    }
    assert textColumns[..|textColumns|] == textColumns;
  }

  /** The kept rows on a new frame, `text` and `person_id` assigned, the output
      columns selected. */
  method Deduplicated(t: Table, textColumns: seq<string>) returns (r: Result<Table, TableError>)
    ensures r == Project(Finished(t, textColumns), OutputColumns(textColumns))
  {
    var kept := Kept(t.rows);
    assert forall k :: 0 <= k < |kept| ==> kept[k] in kept;
    var df := new DataFrame(Table(t.columns, seq(|kept|, k requires 0 <= k < |kept| => t.rows[kept[k]])));
    var rows := df.rows;
    df.SetColumn(TextColumn, seq(|kept|, k requires 0 <= k < |kept| => Some(Str(JoinedText(rows[k], textColumns)))));
    df.SetColumn(PersonId, seq(|kept|, k requires 0 <= k < |kept| => Some(Int(kept[k]))));
    r := Project(df.Snapshot(), OutputColumns(textColumns));
  }

  /** `latest_tasy` on the frame read from `input_path`. */
  method ComputeLatestTasy(input: Table, textColumns: seq<string>) returns (r: Result<Table, TableError>)
    ensures r == LatestConsultations(input, textColumns)
  {
    if Data !in input.columns {
      return Err(MissingColumn(Data));
    }
    var dates := ReadDates(input.rows, Data);
    if dates.Err? {
      return Err(dates.error);
    }
    var ds := dates.value;
    var source := new DataFrame(input);
    source.SetColumn(DataDt, seq(|ds|, i requires 0 <= i < |ds| => AsStamp(ds[i])));
    var missing := FirstMissing(source.Snapshot(), textColumns);
    if missing.Some? {
      return Err(MissingColumn(missing.value));
    }
    var repeated := FirstRepeated(textColumns);
    if repeated.Some? {
      return Err(ShapeMismatch(repeated.value));
    }
    CleanText(source, textColumns);
    if PatientId !in source.columns {
      return Err(MissingColumn(PatientId));
    }
    if EmptyJoinFails(|source.rows|, textColumns) {
      return Err(ShapeMismatch(TextColumn));
    }
    r := Deduplicated(source.Snapshot(), textColumns);
  }

  // ---------------------------------------------------------------------------
  // What the written frame holds

  /** The row index a written row carries as its `person_id`. */
  function PersonIndex(r: Row): int
  {
    match Get(r, PersonId)
    case Some(Int(i)) => i
    case _ => -1
  }

  /** `latest_tasy` raises exactly when `data` is missing, a `data` cell is not a
      day-first date in the timestamp range, a text section other than `data_dt` is
      missing, a section is named twice, `rghc` is missing, or the input has no rows
      and two or more sections. */
  lemma LatestErrors(input: Table, cols: seq<string>)
    ensures LatestConsultations(input, cols).Err? <==>
      || Data !in input.columns
      || (exists i :: 0 <= i < |input.rows| && ReadDate(Get(input.rows[i], Data)).Err?)
      || (exists c :: c in cols && c !in input.columns && c != DataDt)
      || !Distinct(cols)
      || PatientId !in input.columns
      || (|input.rows| == 0 && |cols| >= 2)
  {
    if Dated(input).Ok? {
      var t := Dated(input).value;
      assert forall c :: c in t.columns <==> c in input.columns || c == DataDt;
      assert (exists c :: c in cols && c !in t.columns) <==> (exists c :: c in cols && c !in input.columns && c != DataDt);
      if Prepared(input, cols).Ok? {
        var p := Prepared(input, cols).value;
        assert PatientId in p.columns <==> PatientId in input.columns;
        assert |p.rows| == |input.rows|;
        if PatientId in p.columns && !EmptyJoinFails(|p.rows|, cols) {
          FinishedCells(p, cols);
        }
      }
    }
  }

  /** The written frame of a prepared frame: one row per kept row, with its joined
      text and its row index as `person_id`. */
  lemma FinishedCells(t: Table, cols: seq<string>)
    requires PatientId in t.columns && Data in t.columns && DataDt in t.columns
    requires forall c :: c in cols ==> c in t.columns
    ensures Project(Finished(t, cols), OutputColumns(cols)).Ok?
    ensures var kept := Kept(t.rows); var out := Project(Finished(t, cols), OutputColumns(cols)).value;
      && |out.rows| == |kept|
      && forall k, c :: 0 <= k < |kept| ==> (Get(out.rows[k], c) ==
           if c !in OutputColumns(cols) then None
           else if c == PersonId then Some(Int(kept[k]))
           else if c == TextColumn then Some(Str(JoinedText(t.rows[kept[k]], cols)))
           else Get(t.rows[kept[k]], c))
  {
    var kept := Kept(t.rows);
    assert forall k :: 0 <= k < |kept| ==> kept[k] in kept;
  }

  /** What a successful run writes: the finished frame of the prepared one. */
  lemma Lift(input: Table, cols: seq<string>)
    requires LatestConsultations(input, cols).Ok?
    ensures Prepared(input, cols).Ok?
    ensures var t := Prepared(input, cols).value;
      && PatientId in t.columns && Data in t.columns && DataDt in t.columns
      && (forall c :: c in cols ==> c in t.columns)
      && LatestConsultations(input, cols) == Project(Finished(t, cols), OutputColumns(cols))
  {
    assert Dated(input).Ok?;
  }

  /** The prepared frame, cell by cell, in terms of the input. */
  lemma PreparedRows(input: Table, cols: seq<string>)
    requires Prepared(input, cols).Ok?
    ensures var t := Prepared(input, cols).value;
      && |t.rows| == |input.rows|
      && forall i, c :: 0 <= i < |input.rows| ==>
           Get(t.rows[i], c) == (var x := if c == DataDt then AsStamp(InputDate(input, i)) else Get(input.rows[i], c);
                                 if c in cols then Clean(c, x) else x)
  {
  }

  /** On the prepared frame: no two written rows share a patient, and every patient
      has one. */
  lemma WrittenOnePerPatient(t: Table, cols: seq<string>)
    requires PatientId in t.columns && Data in t.columns && DataDt in t.columns
    requires forall c :: c in cols ==> c in t.columns
    ensures Project(Finished(t, cols), OutputColumns(cols)).Ok?
    ensures var out := Project(Finished(t, cols), OutputColumns(cols)).value;
      && (forall a, b :: 0 <= a < b < |out.rows| ==> Get(out.rows[a], PatientId) != Get(out.rows[b], PatientId))
      && (forall i :: 0 <= i < |t.rows| ==>
            exists k :: 0 <= k < |out.rows| && Get(out.rows[k], PatientId) == Get(t.rows[i], PatientId))
  {
    FinishedCells(t, cols);
    var out := Project(Finished(t, cols), OutputColumns(cols)).value;
    var kept := Kept(t.rows);
    assert PatientId in OutputColumns(cols);
    forall a, b | 0 <= a < b < |out.rows|
      ensures Get(out.rows[a], PatientId) != Get(out.rows[b], PatientId)
    {
      assert kept[a] < kept[b];
      assert Get(out.rows[a], PatientId) == Get(t.rows[kept[a]], PatientId);
      assert Get(out.rows[b], PatientId) == Get(t.rows[kept[b]], PatientId);
      assert IsKept(t.rows, kept[a]) && IsKept(t.rows, kept[b]);
    }
    forall i | 0 <= i < |t.rows|
      ensures exists k :: 0 <= k < |out.rows| && Get(out.rows[k], PatientId) == Get(t.rows[i], PatientId)
    {
      var v := Get(t.rows[i], PatientId);
      var p := Pick(t.rows, v).value;
      assert IsKept(t.rows, p);
      var k :| 0 <= k < |kept| && kept[k] == p;
      assert Get(out.rows[k], PatientId) == v;
    }
  }

  /** On the prepared frame: a written row's `data_dt` is not behind any row of the
      same patient. */
  lemma WrittenIsLatest(t: Table, cols: seq<string>)
    requires PatientId in t.columns && Data in t.columns && DataDt in t.columns
    requires forall c :: c in cols ==> c in t.columns
    ensures Project(Finished(t, cols), OutputColumns(cols)).Ok?
    ensures var out := Project(Finished(t, cols), OutputColumns(cols)).value;
      forall k, j :: 0 <= k < |out.rows| && 0 <= j < |t.rows| && Get(t.rows[j], PatientId) == Get(out.rows[k], PatientId) ==>
        !Ahead(KeyOf(t.rows[j]), KeyOf(out.rows[k]))
  {
    FinishedCells(t, cols);
    var kept := Kept(t.rows);
    forall k | 0 <= k < |kept|
      ensures IsKept(t.rows, kept[k])
    {
    }
  }

  /** Written row `k` is the prepared row `person_id`, with its joined text. */
  lemma WrittenRow(input: Table, cols: seq<string>, k: nat)
    requires LatestConsultations(input, cols).Ok?
    requires k < |LatestConsultations(input, cols).value.rows|
    ensures Prepared(input, cols).Ok?
    ensures var out := LatestConsultations(input, cols).value; var p := PersonIndex(out.rows[k]);
      && 0 <= p < |input.rows|
      && Get(out.rows[k], PersonId) == Some(Int(p))
      && Get(out.rows[k], TextColumn) == Some(Str(JoinedText(Prepared(input, cols).value.rows[p], cols)))
      && forall c :: c in OutputColumns(cols) && c != PersonId && c != TextColumn ==>
           Get(out.rows[k], c) == Get(Prepared(input, cols).value.rows[p], c)
  {
    Lift(input, cols);
    var t := Prepared(input, cols).value;
    FinishedCells(t, cols);
    assert PersonId in OutputColumns(cols) && TextColumn in OutputColumns(cols);
  }

  /** Each written row is input row `person_id`, and holds that row's patient. */
  lemma PersonIdIsRowIndex(input: Table, cols: seq<string>)
    requires LatestConsultations(input, cols).Ok?
    requires PatientId !in cols
    ensures var out := LatestConsultations(input, cols).value;
      forall k :: 0 <= k < |out.rows| ==>
        && 0 <= PersonIndex(out.rows[k]) < |input.rows|
        && Get(out.rows[k], PersonId) == Some(Int(PersonIndex(out.rows[k])))
        && Get(out.rows[k], PatientId) == Get(input.rows[PersonIndex(out.rows[k])], PatientId)
  {
    var out := LatestConsultations(input, cols).value;
    forall k | 0 <= k < |out.rows|
      ensures 0 <= PersonIndex(out.rows[k]) < |input.rows|
      ensures Get(out.rows[k], PersonId) == Some(Int(PersonIndex(out.rows[k])))
      ensures Get(out.rows[k], PatientId) == Get(input.rows[PersonIndex(out.rows[k])], PatientId)
    {
      WrittenRow(input, cols, k);
      var p := PersonIndex(out.rows[k]);
      assert PatientId in OutputColumns(cols);
      assert Get(Prepared(input, cols).value.rows[p], PatientId) == Get(Dated(input).value.rows[p], PatientId);
    }
  }

  /** A written row holds its input row's `data`, and as `data_dt` the date read from it. */
  lemma KeptRowDates(input: Table, cols: seq<string>)
    requires LatestConsultations(input, cols).Ok?
    requires Data !in cols && DataDt !in cols
    ensures var out := LatestConsultations(input, cols).value;
      forall k :: 0 <= k < |out.rows| ==> 0 <= PersonIndex(out.rows[k]) < |input.rows|
    ensures var out := LatestConsultations(input, cols).value;
      forall k :: 0 <= k < |out.rows| ==>
        && Get(out.rows[k], Data) == Get(input.rows[PersonIndex(out.rows[k])], Data)
        && Get(out.rows[k], DataDt) == AsStamp(InputDate(input, PersonIndex(out.rows[k])))
  {
    var out := LatestConsultations(input, cols).value;
    forall k | 0 <= k < |out.rows|
      ensures 0 <= PersonIndex(out.rows[k]) < |input.rows|
      ensures Get(out.rows[k], Data) == Get(input.rows[PersonIndex(out.rows[k])], Data)
      ensures Get(out.rows[k], DataDt) == AsStamp(InputDate(input, PersonIndex(out.rows[k])))
    {
      WrittenRow(input, cols, k);
      var p, d := PersonIndex(out.rows[k]), Dated(input).value;
      assert Data in OutputColumns(cols) && DataDt in OutputColumns(cols);
      assert Get(Prepared(input, cols).value.rows[p], Data) == Get(d.rows[p], Data);
      assert Get(Prepared(input, cols).value.rows[p], DataDt) == Get(d.rows[p], DataDt);
    }
  }

  /** `drop_duplicates(subset=["rghc"])`: no two written rows share a patient, and
      every patient of the input (a missing id counting as one) has a written row. */
  lemma OneRowPerPatient(input: Table, cols: seq<string>)
    requires LatestConsultations(input, cols).Ok?
    requires PatientId !in cols
    ensures var out := LatestConsultations(input, cols).value;
      && (forall a, b :: 0 <= a < b < |out.rows| ==> Get(out.rows[a], PatientId) != Get(out.rows[b], PatientId))
      && (forall i :: 0 <= i < |input.rows| ==>
            exists k :: 0 <= k < |out.rows| && Get(out.rows[k], PatientId) == Get(input.rows[i], PatientId))
  {
    Lift(input, cols);
    var t := Prepared(input, cols).value;
    WrittenOnePerPatient(t, cols);
    var out := LatestConsultations(input, cols).value;
    forall i | 0 <= i < |input.rows|
      ensures exists k :: 0 <= k < |out.rows| && Get(out.rows[k], PatientId) == Get(input.rows[i], PatientId)
    {
      PreparedKeeps(input, cols, i, PatientId);
      var k :| 0 <= k < |out.rows| && Get(out.rows[k], PatientId) == Get(t.rows[i], PatientId);
    }
  }

  /** A column other than the sections and `data_dt` keeps its input cells. */
  lemma PreparedKeeps(input: Table, cols: seq<string>, i: nat, c: string)
    requires Prepared(input, cols).Ok? && i < |input.rows| && c !in cols && c != DataDt
    ensures Get(Prepared(input, cols).value.rows[i], c) == Get(input.rows[i], c)
  {
    assert Get(Prepared(input, cols).value.rows[i], c) == Get(Dated(input).value.rows[i], c);
  }

  /** The written `data_dt` of a patient is no earlier than the date of any of that
      patient's consultations, NaT coming last. */
  lemma KeptRowIsLatest(input: Table, cols: seq<string>)
    requires LatestConsultations(input, cols).Ok?
    requires PatientId !in cols && DataDt !in cols
    ensures var out := LatestConsultations(input, cols).value;
      forall k, j :: 0 <= k < |out.rows| && 0 <= j < |input.rows| && Get(input.rows[j], PatientId) == Get(out.rows[k], PatientId) ==>
        !LaterDate(InputDate(input, j), DateOf(out.rows[k]))
  {
    Lift(input, cols);
    var t := Prepared(input, cols).value;
    WrittenIsLatest(t, cols);
    var out := LatestConsultations(input, cols).value;
    forall k, j | 0 <= k < |out.rows| && 0 <= j < |input.rows| && Get(input.rows[j], PatientId) == Get(out.rows[k], PatientId)
      ensures !LaterDate(InputDate(input, j), DateOf(out.rows[k]))
    {
      PreparedKeeps(input, cols, j, PatientId);
      PreparedKey(input, cols, j);
      WrittenKey(input, cols, k);
    }
  }

  /** While `data_dt` is not a section, a prepared row sorts by the date read from
      its `data`. */
  lemma PreparedKey(input: Table, cols: seq<string>, j: nat)
    requires Prepared(input, cols).Ok? && DataDt !in cols && j < |input.rows|
    ensures KeyOf(Prepared(input, cols).value.rows[j]) == Stamped(InputDate(input, j))
  {
    assert Get(Prepared(input, cols).value.rows[j], DataDt) == AsStamp(InputDate(input, j));
  }

  /** While `data_dt` is not a section, a written row sorts by its `data_dt`. */
  lemma WrittenKey(input: Table, cols: seq<string>, k: nat)
    requires LatestConsultations(input, cols).Ok? && DataDt !in cols
    requires k < |LatestConsultations(input, cols).value.rows|
    ensures var r := LatestConsultations(input, cols).value.rows[k]; KeyOf(r) == Stamped(DateOf(r))
  {
    WrittenRow(input, cols, k);
    var out := LatestConsultations(input, cols).value;
    var p := PersonIndex(out.rows[k]);
    assert DataDt in OutputColumns(cols);
    PreparedKey(input, cols, p);
  }

  /** Joining the cleaned sections is joining the cleaned input sections. */
  lemma PreparedJoinedText(input: Table, cols: seq<string>, p: nat)
    requires Prepared(input, cols).Ok? && DataDt !in cols && p < |input.rows|
    ensures JoinedText(Prepared(input, cols).value.rows[p], cols) == JoinedText(input.rows[p], cols)
  {
    var t := Prepared(input, cols).value;
    forall j | 0 <= j < |cols|
      ensures AsText(Get(t.rows[p], cols[j])) == AsText(Get(input.rows[p], cols[j]))
    {
      var c, x := cols[j], Get(input.rows[p], cols[j]);
      assert c in cols && c != DataDt;
      assert Get(Dated(input).value.rows[p], c) == x;
      assert Get(t.rows[p], c) == Clean(c, x);
      CleanIdempotent(c, x);
      assert Clean(c, Clean(c, x)).value.s == AsText(Clean(c, x));
    }
    assert seq(|cols|, j requires 0 <= j < |cols| => AsText(Get(t.rows[p], cols[j])))
        == seq(|cols|, j requires 0 <= j < |cols| => AsText(Get(input.rows[p], cols[j])));
  }

  /** `text` is the cleaned sections of the kept row joined by single spaces. */
  lemma TextIsJoinedSections(input: Table, cols: seq<string>)
    requires LatestConsultations(input, cols).Ok?
    requires DataDt !in cols
    ensures var out := LatestConsultations(input, cols).value;
      forall k :: 0 <= k < |out.rows| ==> 0 <= PersonIndex(out.rows[k]) < |input.rows|
    ensures var out := LatestConsultations(input, cols).value;
      forall k :: 0 <= k < |out.rows| ==>
        Get(out.rows[k], TextColumn) == Some(Str(JoinedText(input.rows[PersonIndex(out.rows[k])], cols)))
  {
    var out := LatestConsultations(input, cols).value;
    forall k | 0 <= k < |out.rows|
      ensures 0 <= PersonIndex(out.rows[k]) < |input.rows|
      ensures Get(out.rows[k], TextColumn) == Some(Str(JoinedText(input.rows[PersonIndex(out.rows[k])], cols)))
    {
      WrittenRow(input, cols, k);
      PreparedJoinedText(input, cols, PersonIndex(out.rows[k]));
    }
  }

  /** Each text section of a written row holds the kept row's cleaned cell. */
  lemma SectionsAreCleaned(input: Table, cols: seq<string>)
    requires LatestConsultations(input, cols).Ok?
    requires DataDt !in cols
    ensures var out := LatestConsultations(input, cols).value;
      forall k :: 0 <= k < |out.rows| ==> 0 <= PersonIndex(out.rows[k]) < |input.rows|
    ensures var out := LatestConsultations(input, cols).value;
      forall k, c :: 0 <= k < |out.rows| && c in cols && c != TextColumn && c != PersonId ==>
        Get(out.rows[k], c) == Clean(c, Get(input.rows[PersonIndex(out.rows[k])], c))
  {
    var out := LatestConsultations(input, cols).value;
    forall k | 0 <= k < |out.rows|
      ensures 0 <= PersonIndex(out.rows[k]) < |input.rows|
    {
      WrittenRow(input, cols, k);
    }
    forall k, c | 0 <= k < |out.rows| && c in cols && c != TextColumn && c != PersonId
      ensures Get(out.rows[k], c) == Clean(c, Get(input.rows[PersonIndex(out.rows[k])], c))
    {
      WrittenRow(input, cols, k);
      var p := PersonIndex(out.rows[k]);
      assert c in OutputColumns(cols) && c != DataDt;
      assert Get(Dated(input).value.rows[p], c) == Get(input.rows[p], c);
    }
  }

  /** A missing section and one that is exactly "nan" both become empty, and the
      spaces around them stay. */
  lemma EmptySectionsKeepSpaces()
    ensures JoinedText(map["a" := Some(Str("dor")), "b" := Some(Str("nan")), "c" := None, "d" := Some(Str("febre"))], ["a", "b", "c", "d"])
      == "dor   febre"
  {
    var r := map["a" := Some(Str("dor")), "b" := Some(Str("nan")), "c" := None, "d" := Some(Str("febre"))];
    var cols := ["a", "b", "c", "d"];
    var parts := seq(|cols|, j requires 0 <= j < |cols| => AsText(Get(r, cols[j])));
    assert parts == ["dor", "", "", "febre"];
    assert Join(parts, " ") == "dor" + " " + Join(["", "", "febre"], " ");
  }
}
