/** `datetime.strptime` and `datetime.strftime` for the day/month/year formats the
    schema validators use, and the two `DATE_REGEX` field patterns.

    CPython's `strptime` turns the format into a regular expression, one group per
    directive: `%d` is `3[01]|[12]\d|0[1-9]|[1-9]| [1-9]`, `%m` is `1[0-2]|0[1-9]|[1-9]`,
    `%Y` is `\d\d\d\d` and `%y` is `\d\d`; the match must consume the whole string
    ("unconverted data remains" otherwise), and the fields must then form a real date
    (ValueError otherwise). No group can match the separator, and within a group
    the alternatives that could both fit one token are tried longest first, so the
    regular expression matches exactly when the string splits on the separator into
    one token per directive and every token matches its directive whole. That is
    how the model reads a string. */
module Strptime {
  import opened Wrappers
  import opened Text
  import opened Calendar

  /** `%d`, `%m`, `%Y`, `%y`. */
  datatype Directive = DayOfMonth | MonthNumber | Year4 | Year2

  /** A format string: directives separated by one separator character. */
  datatype Format = Format(directives: seq<Directive>, sep: char)

  /** "%d/%m/%Y" */
  const DayMonthYear4 := Format([DayOfMonth, MonthNumber, Year4], '/')
  /** "%m/%d/%Y" */
  const MonthDayYear4 := Format([MonthNumber, DayOfMonth, Year4], '/')
  /** "%d/%m/%y" */
  const DayMonthYear2 := Format([DayOfMonth, MonthNumber, Year2], '/')
  /** "%m/%d/%y" */
  const MonthDayYear2 := Format([MonthNumber, DayOfMonth, Year2], '/')
  /** "%m/%Y" */
  const MonthYear4 := Format([MonthNumber, Year4], '/')

  /** `%y`: "00"–"68" are 2000–2068, "69"–"99" are 1969–1999. */
  function PivotYear(yy: nat): (y: int)
    requires yy < 100
    ensures 1969 <= y <= 2068 && y % 100 == yy
  {
    if yy <= 68 then 2000 + yy else 1900 + yy
  }

  /** The value one token gives its directive, or None when the directive's pattern
      does not match the whole token. */
  function TokenValue(t: string, d: Directive): Option<int>
  {
    match d
    case DayOfMonth =>
      if |t| == 1 && '1' <= t[0] <= '9' then Some(DigitValue(t[0]))
      else if |t| == 2 && t[0] == ' ' && '1' <= t[1] <= '9' then Some(DigitValue(t[1]))
      else if |t| == 2 && AllDigits(t) && 1 <= DecimalValue(t) <= 31 then Some(DecimalValue(t))
      else None
    case MonthNumber =>
      if |t| == 1 && '1' <= t[0] <= '9' then Some(DigitValue(t[0]))
      else if |t| == 2 && AllDigits(t) && 1 <= DecimalValue(t) <= 12 then Some(DecimalValue(t))
      else None
    case Year4 =>
      if |t| == 4 && AllDigits(t) then Some(DecimalValue(t)) else None
    case Year2 =>
      if |t| == 2 && AllDigits(t) then Some(PivotYear(DecimalValue(t))) else None
  }

  function Assign(acc: Date, d: Directive, v: int): Date
  {
    match d
    case DayOfMonth => acc.(day := v)
    case MonthNumber => acc.(month := v)
    case Year4 => acc.(year := v)
    case Year2 => acc.(year := v)
  }

  /** Reads the tokens into the fields of `acc`, one directive each. */
  function Fill(toks: seq<string>, dirs: seq<Directive>, acc: Date): Option<Date>
    requires |toks| == |dirs|
  {
    if |dirs| == 0 then Some(acc)
    else match TokenValue(toks[0], dirs[0])
      case None => None
      case Some(v) => Fill(toks[1..], dirs[1..], Assign(acc, dirs[0], v))
  }

  /** `datetime.strptime(s, f)`, with None where it raises ValueError. Fields the
      format does not mention keep strptime's defaults: year 1900, month 1, day 1. */
  function Parse(s: string, f: Format): (r: Option<Date>)
    ensures r.Some? ==> IsValid(r.value)
  {
    var toks := Split(s, f.sep);
    if |toks| != |f.directives| then None
    else match Fill(toks, f.directives, Date(1900, 1, 1))
      case Some(d) => if IsValid(d) then Some(d) else None
      case None => None
  }

  /** `d.strftime("%d/%m/%Y")` with every field zero-padded, the year to four digits:
      the rendering the validators rely on. `StrftimeUnpadded` is what glibc writes
      for years below 1000. */
  function Strftime(d: Date): (s: string)
    requires IsValid(d)
    ensures |s| == 10
  {
    assert Pow10(2) == 100 && Pow10(4) == 10000;
    ZeroPad(d.day, 2) + "/" + ZeroPad(d.month, 2) + "/" + ZeroPad(d.year, 4)
  }

  /** `^\d{2}/\d{2}/(\d{2}|\d{4})$`: dd/mm/YYYY or dd/mm/YY, digits only. */
  predicate MatchesDateRegex(s: string)
  {
    (|s| == 8 || |s| == 10) && IsDigit(s[0]) && IsDigit(s[1]) && s[2] == '/'
    && IsDigit(s[3]) && IsDigit(s[4]) && s[5] == '/' && AllDigits(s[6..])
  }

  /** `^\d{2}/\d{2}/\d{4}$`: dd/mm/YYYY, digits only. */
  predicate MatchesStrictDateRegex(s: string)
  {
    |s| == 10 && MatchesDateRegex(s)
  }

  /** A string that is the dd/mm/YYYY rendering of the date it denotes. */
  predicate IsCanonical(s: string)
  {
    var p := Parse(s, DayMonthYear4);
    p.Some? && Strftime(p.value) == s
  }

  lemma PadHasNoSlash(n: nat, w: nat)
    requires n < Pow10(w)
    ensures '/' !in ZeroPad(n, w)
  {
    var p := ZeroPad(n, w);
    assert forall i :: 0 <= i < |p| ==> p[i] != '/';
  }

  lemma SplitOfRendering(d: Date)
    requires IsValid(d)
    ensures Pow10(2) == 100 && Pow10(4) == 10000
    ensures Split(Strftime(d), '/') == [ZeroPad(d.day, 2), ZeroPad(d.month, 2), ZeroPad(d.year, 4)]
  {
    assert Pow10(2) == 100 && Pow10(4) == 10000;
    var a, b, c := ZeroPad(d.day, 2), ZeroPad(d.month, 2), ZeroPad(d.year, 4);
    PadHasNoSlash(d.day, 2);
    PadHasNoSlash(d.month, 2);
    PadHasNoSlash(d.year, 4);
    assert Strftime(d) == a + ['/'] + (b + ['/'] + c);
    SplitAfterPiece(a, '/', b + ['/'] + c);
    SplitAfterPiece(b, '/', c);
    SplitNoSeparator(c, '/');
  }

  /** A successful fill read every token with its directive. */
  lemma {:induction false} FillReadsEveryToken(toks: seq<string>, dirs: seq<Directive>, acc: Date, k: nat)
    requires |toks| == |dirs| && k < |dirs|
    requires Fill(toks, dirs, acc).Some?
    ensures TokenValue(toks[k], dirs[k]).Some?
  {
    var v := TokenValue(toks[0], dirs[0]);
    if k > 0 {
      FillReadsEveryToken(toks[1..], dirs[1..], Assign(acc, dirs[0], v.value), k - 1);
    }
  }

  /** Reading a string that splits into three tokens, each matching its directive. */
  lemma ParseThreeTokens(s: string, f: Format, a: string, b: string, c: string, x: int, y: int, z: int)
    requires |f.directives| == 3 && Split(s, f.sep) == [a, b, c]
    requires TokenValue(a, f.directives[0]) == Some(x)
    requires TokenValue(b, f.directives[1]) == Some(y)
    requires TokenValue(c, f.directives[2]) == Some(z)
    ensures var d := Assign(Assign(Assign(Date(1900, 1, 1), f.directives[0], x), f.directives[1], y), f.directives[2], z);
            Parse(s, f) == if IsValid(d) then Some(d) else None
  {
    var toks, dirs := [a, b, c], f.directives;
    var acc1 := Assign(Date(1900, 1, 1), dirs[0], x);
    var acc2 := Assign(acc1, dirs[1], y);
    var acc3 := Assign(acc2, dirs[2], z);
    assert Fill(toks[2..], dirs[2..], acc2) == Some(acc3) by {
      assert toks[2..][1..] == [] && dirs[2..][1..] == [];
    }
    assert Fill(toks[1..], dirs[1..], acc1) == Some(acc3) by {
      assert toks[1..][1..] == toks[2..] && dirs[1..][1..] == dirs[2..];
    }
  }

  /** Reading a string that splits into two tokens, each matching its directive. */
  lemma ParseTwoTokens(s: string, f: Format, a: string, b: string, x: int, y: int)
    requires |f.directives| == 2 && Split(s, f.sep) == [a, b]
    requires TokenValue(a, f.directives[0]) == Some(x)
    requires TokenValue(b, f.directives[1]) == Some(y)
    ensures var d := Assign(Assign(Date(1900, 1, 1), f.directives[0], x), f.directives[1], y);
            Parse(s, f) == if IsValid(d) then Some(d) else None
  {
    var toks, dirs := [a, b], f.directives;
    var acc1 := Assign(Date(1900, 1, 1), dirs[0], x);
    assert Fill(toks[1..], dirs[1..], acc1) == Some(Assign(acc1, dirs[1], y)) by {
      assert toks[1..][1..] == [] && dirs[1..][1..] == [];
    }
  }

  /** A string the loose field pattern accepts splits into its three digit groups. */
  lemma SplitOfPatterned(s: string)
    requires MatchesDateRegex(s)
    ensures Split(s, '/') == [s[..2], s[3..5], s[6..]]
  {
    assert forall i :: 0 <= i < |s[6..]| ==> s[6..][i] != '/';
    SplitThree(s[..2], s[3..5], s[6..]);
    assert s[..2] + "/" + s[3..5] + "/" + s[6..] == s;
  }

  /** The pieces of "a/b/c" when no piece holds a slash. */
  lemma SplitThree(a: string, b: string, c: string)
    requires '/' !in a && '/' !in b && '/' !in c
    ensures Split(a + "/" + b + "/" + c, '/') == [a, b, c]
  {
    assert a + "/" + b + "/" + c == a + ['/'] + (b + ['/'] + c);
    SplitAfterPiece(a, '/', b + ['/'] + c);
    SplitAfterPiece(b, '/', c);
    SplitNoSeparator(c, '/');
  }

  lemma TwoDigitPad(n: nat)
    requires n < 100
    ensures Pow10(2) == 100 && ZeroPad(n, 2) == [Digit(n / 10), Digit(n % 10)]
  {
    assert Pow10(2) == 100;
    var n1 := n / 10;
    assert ZeroPad(n, 2) == ZeroPad(n1, 1) + [Digit(n % 10)];
    assert ZeroPad(n1, 1) == [Digit(n1 % 10)];
  }

  lemma FourDigitPad(n: nat)
    requires n < 10000
    ensures Pow10(4) == 10000
    ensures ZeroPad(n, 4) == [Digit(n / 10 / 10 / 10), Digit(n / 10 / 10 % 10), Digit(n / 10 % 10), Digit(n % 10)]
  {
    assert Pow10(4) == 10000;
    var n1 := n / 10;
    var n2 := n1 / 10;
    var n3 := n2 / 10;
    assert ZeroPad(n, 4) == ZeroPad(n1, 3) + [Digit(n % 10)];
    assert ZeroPad(n1, 3) == ZeroPad(n2, 2) + [Digit(n1 % 10)];
    assert ZeroPad(n2, 2) == ZeroPad(n3, 1) + [Digit(n2 % 10)];
    assert ZeroPad(n3, 1) == [Digit(n3 % 10)];
  }

  lemma TwoDigitValue(t: string)
    requires |t| == 2 && AllDigits(t)
    ensures DecimalValue(t) == 10 * DigitValue(t[0]) + DigitValue(t[1])
  {
    assert t[..1][..0] == [];
  }

  lemma FourDigitValue(t: string)
    requires |t| == 4 && AllDigits(t)
    ensures DecimalValue(t) == 1000 * DigitValue(t[0]) + 100 * DigitValue(t[1]) + 10 * DigitValue(t[2]) + DigitValue(t[3])
  {
    var t3, t2, t1 := t[..3], t[..2], t[..1];
    assert t3[..2] == t2 && t2[..1] == t1 && t1[..0] == [];
    assert DecimalValue(t1) == DigitValue(t[0]);
    assert DecimalValue(t2) == DecimalValue(t1) * 10 + DigitValue(t[1]);
    assert DecimalValue(t3) == DecimalValue(t2) * 10 + DigitValue(t[2]);
    assert DecimalValue(t) == DecimalValue(t3) * 10 + DigitValue(t[3]);
  }

  /** What a two-digit token reads as under each directive. */
  lemma TwoDigitToken(t: string)
    requires |t| == 2 && AllDigits(t)
    ensures var n := 10 * DigitValue(t[0]) + DigitValue(t[1]);
            && TokenValue(t, DayOfMonth) == (if 1 <= n <= 31 then Some(n) else None)
            && TokenValue(t, MonthNumber) == (if 1 <= n <= 12 then Some(n) else None)
            && TokenValue(t, Year2) == Some(PivotYear(n))
            && TokenValue(t, Year4) == None
  {
    TwoDigitValue(t);
  }

  /** What a four-digit token reads as under each directive. */
  lemma FourDigitToken(t: string)
    requires |t| == 4 && AllDigits(t)
    ensures TokenValue(t, Year4) == Some(1000 * DigitValue(t[0]) + 100 * DigitValue(t[1]) + 10 * DigitValue(t[2]) + DigitValue(t[3]))
    ensures TokenValue(t, DayOfMonth) == None && TokenValue(t, MonthNumber) == None && TokenValue(t, Year2) == None
  {
    FourDigitValue(t);
  }

  /** A token its directive does not read makes the whole parse fail. */
  lemma ParseRejectsToken(s: string, f: Format, k: nat)
    requires |Split(s, f.sep)| == |f.directives| && k < |f.directives|
    requires TokenValue(Split(s, f.sep)[k], f.directives[k]).None?
    ensures Parse(s, f).None?
  {
    if Parse(s, f).Some? {
      FillReadsEveryToken(Split(s, f.sep), f.directives, Date(1900, 1, 1), k);
    }
  }

  /** The ten digit characters. */
  lemma DigitChars()
    ensures Digit(0) == '0' && Digit(1) == '1' && Digit(2) == '2' && Digit(3) == '3' && Digit(4) == '4'
    ensures Digit(5) == '5' && Digit(6) == '6' && Digit(7) == '7' && Digit(8) == '8' && Digit(9) == '9'
  {
  }

  /** The rendering written out digit by digit. */
  lemma StrftimeDigits(d: Date)
    requires IsValid(d)
    ensures Strftime(d) == [Digit(d.day / 10), Digit(d.day % 10), '/', Digit(d.month / 10), Digit(d.month % 10), '/',
                            Digit(d.year / 10 / 10 / 10), Digit(d.year / 10 / 10 % 10), Digit(d.year / 10 % 10), Digit(d.year % 10)]
  {
    TwoDigitPad(d.day);
    TwoDigitPad(d.month);
    FourDigitPad(d.year);
  }

  lemma RenderingMatchesPatterns(d: Date)
    requires IsValid(d)
    ensures MatchesStrictDateRegex(Strftime(d)) && MatchesDateRegex(Strftime(d))
  {
    assert Pow10(2) == 100 && Pow10(4) == 10000;
    var a, b, c := ZeroPad(d.day, 2), ZeroPad(d.month, 2), ZeroPad(d.year, 4);
    var s := Strftime(d);
    assert s == a + "/" + b + "/" + c;
    assert s[0] == a[0] && s[1] == a[1] && s[3] == b[0] && s[4] == b[1];
    assert s[6..] == c;
  }

  lemma PaddedTokens(d: Date)
    requires IsValid(d)
    ensures Pow10(2) == 100 && Pow10(4) == 10000
    ensures TokenValue(ZeroPad(d.day, 2), DayOfMonth) == Some(d.day)
    ensures TokenValue(ZeroPad(d.month, 2), MonthNumber) == Some(d.month)
    ensures TokenValue(ZeroPad(d.year, 4), Year4) == Some(d.year)
  {
    assert Pow10(2) == 100 && Pow10(4) == 10000;
    var a := ZeroPad(d.day, 2);
    assert IsDigit(a[0]);
    var b := ZeroPad(d.month, 2);
    assert IsDigit(b[0]);
  }

  /** Round trip: what strftime("%d/%m/%Y") writes, strptime("%d/%m/%Y") reads back
      as the same date, and it matches both field patterns. */
  lemma StrftimeRoundTrip(d: Date)
    requires IsValid(d)
    ensures Parse(Strftime(d), DayMonthYear4) == Some(d)
    ensures MatchesStrictDateRegex(Strftime(d)) && MatchesDateRegex(Strftime(d))
    ensures IsCanonical(Strftime(d))
  {
    SplitOfRendering(d);
    PaddedTokens(d);
    ParseThreeTokens(Strftime(d), DayMonthYear4, ZeroPad(d.day, 2), ZeroPad(d.month, 2), ZeroPad(d.year, 4), d.day, d.month, d.year);
    RenderingMatchesPatterns(d);
  }

  /** `str(n)` of a four-digit number is its four-digit zero-padding. */
  lemma FourDigitString(n: nat)
    requires 1000 <= n < 10000
    ensures Pow10(4) == 10000 && NatToString(n) == ZeroPad(n, 4)
  {
    FourDigitPad(n);
    var n1 := n / 10;
    var n2 := n1 / 10;
    var n3 := n2 / 10;
    assert NatToString(n3) == [Digit(n3)];
    assert NatToString(n2) == NatToString(n3) + [Digit(n2 % 10)];
    assert NatToString(n1) == NatToString(n2) + [Digit(n1 % 10)];
    assert NatToString(n) == NatToString(n1) + [Digit(n % 10)];
  }

  /** `str(n)` of a number below 1000 has at most three digits. */
  lemma ShortString(n: nat)
    requires n < 1000
    ensures |NatToString(n)| <= 3
  {
    if n >= 10 {
      assert NatToString(n) == NatToString(n / 10) + [Digit(n % 10)];
      if n / 10 >= 10 {
        assert NatToString(n / 10) == NatToString(n / 10 / 10) + [Digit(n / 10 % 10)];
      }
    }
  }

  /** A rendering whose year has fewer than four digits is not read back by
      `strptime("%d/%m/%Y")`: its year token is too short for `%Y`. */
  lemma ShortYearUnread(d: Date)
    requires IsValid(d) && d.year < 1000
    ensures Pow10(2) == 100
    ensures var s := ZeroPad(d.day, 2) + "/" + ZeroPad(d.month, 2) + "/" + NatToString(d.year);
            |s| < 10 && Parse(s, DayMonthYear4).None?
  {
    assert Pow10(2) == 100;
    var a, b, c := ZeroPad(d.day, 2), ZeroPad(d.month, 2), NatToString(d.year);
    var s := a + "/" + b + "/" + c;
    ShortString(d.year);
    PadHasNoSlash(d.day, 2);
    PadHasNoSlash(d.month, 2);
    assert forall i :: 0 <= i < |c| ==> c[i] != '/';
    SplitThree(a, b, c);
    ParseRejectsToken(s, DayMonthYear4, 2);
  }

  /** `d.strftime("%d/%m/%Y")` as glibc's `strftime` writes it, which CPython calls:
      day and month zero-padded, the year in as many digits as it has. From year
      1000 on it is the padded rendering; below, it is shorter and `%d/%m/%Y` no
      longer reads it. */
  function StrftimeUnpadded(d: Date): (s: string)
    requires IsValid(d)
    ensures d.year >= 1000 ==> s == Strftime(d)
    ensures d.year < 1000 ==> |s| < 10 && Parse(s, DayMonthYear4).None?
  {
    assert Pow10(2) == 100;
    if d.year >= 1000 then
      FourDigitString(d.year);
      ZeroPad(d.day, 2) + "/" + ZeroPad(d.month, 2) + "/" + NatToString(d.year)
    else
      ShortYearUnread(d);
      ZeroPad(d.day, 2) + "/" + ZeroPad(d.month, 2) + "/" + NatToString(d.year)
  }

  /** `strptime` tells the year widths apart: no string parses both with a
      four-digit-year format and with a two-digit-year one. */
  lemma YearWidthsExclusive(s: string, f4: Format, f2: Format)
    requires f4 == DayMonthYear4 || f4 == MonthDayYear4
    requires f2 == DayMonthYear2 || f2 == MonthDayYear2
    ensures !(Parse(s, f4).Some? && Parse(s, f2).Some?)
  {
    var toks := Split(s, '/');
    if Parse(s, f4).Some? {
      FillReadsEveryToken(toks, f4.directives, Date(1900, 1, 1), 2);
      assert |toks[2]| == 4;
    }
    if Parse(s, f2).Some? {
      FillReadsEveryToken(toks, f2.directives, Date(1900, 1, 1), 2);
      assert |toks[2]| == 2;
    }
  }

  /** The first of `formats` that parses `s`, with the date it gives: the
      try/except chain of the validators. */
  function FirstParse(s: string, formats: seq<Format>): (r: Option<(nat, Date)>)
    ensures r.Some? ==> r.value.0 < |formats| && Parse(s, formats[r.value.0]) == Some(r.value.1)
    ensures r.Some? ==> forall j :: 0 <= j < r.value.0 ==> Parse(s, formats[j]).None?
    ensures r.None? <==> forall j :: 0 <= j < |formats| ==> Parse(s, formats[j]).None?
  {
    if |formats| == 0 then None
    else match Parse(s, formats[0])
      case Some(d) => Some((0, d))
      case None =>
        match FirstParse(s, formats[1..])
        case None => None
        case Some(p) => Some((p.0 + 1, p.1))
  }

  /** One step of the chain: the first format, then the rest. */
  lemma FirstParseCons(s: string, f: Format, rest: seq<Format>)
    ensures FirstParse(s, [f] + rest) ==
              match Parse(s, f)
              case Some(d) => Some((0, d))
              case None => (match FirstParse(s, rest) case None => None case Some(p) => Some((p.0 + 1, p.1)))
  {
    assert ([f] + rest)[1..] == rest;
  }

  /** Appending a format to the chain only matters for strings no earlier format reads. */
  lemma {:induction false} FirstParseAppend(s: string, fs: seq<Format>, f: Format)
    ensures FirstParse(s, fs + [f]) ==
              match FirstParse(s, fs)
              case Some(p) => Some(p)
              case None => (match Parse(s, f) case Some(d) => Some((|fs|, d)) case None => None)
  {
    if |fs| == 0 {
      assert fs + [f] == [f];
      assert [f][1..] == [];
    } else {
      assert (fs + [f])[1..] == fs[1..] + [f];
      FirstParseAppend(s, fs[1..], f);
    }
  }

  /** What the validators log. */
  datatype DateWarning =
    | Corrected(raw: string, from: Format, corrected: string)
    | InvalidFormat(raw: string)
}
