/** `pd.to_datetime(..., format="%d/%m/%Y")` on one cell, and the latest of a list
    of dates (`.max()`), as the REDCap and TASY transforms use them. */
module Timestamps {
  import opened Wrappers
  import opened Calendar
  import opened Strptime
  import opened Tables

  /** The strings pandas reads as NaT rather than parsing them. */
  const NatStrings: set<string> := {"", "NaT", "nat", "NAT", "nan", "NaN", "NAN"}

  /** The first and the last midnight a `pd.Timestamp` can hold. Timestamps count
      nanoseconds in 64 bits: `Timestamp.min` is 1677-09-21 00:12:43 and
      `Timestamp.max` is 2262-04-11 23:47:16, so midnight of 1677-09-21 is already
      out of range. */
  const FirstStampDate := Date(1677, 9, 22)
  const LastStampDate := Date(2262, 4, 11)

  /** A date `to_datetime` can return; any other raises OutOfBoundsDatetime, which
      is a ValueError. */
  predicate InStampRange(d: Date)
  {
    !Before(d, FirstStampDate) && !Before(LastStampDate, d)
  }

  /** One cell through `pd.to_datetime(..., format="%d/%m/%Y", errors="raise")`: a
      missing cell or a NaT string is NaT (`None`), a text cell is parsed day first
      with a four-digit year and must fall in the timestamp range, a timestamp
      stays as it is; anything else raises ValueError. */
  function ReadDate(v: Value): (r: Result<Option<Date>, TableError>)
    ensures v.None? ==> r == Ok(None)
    ensures r.Ok? && r.value.Some? ==> IsValid(r.value.value) && InStampRange(r.value.value)
    ensures v.Some? && v.value.Str? ==>
      (r.Ok? <==> v.value.s in NatStrings
                  || (Parse(v.value.s, DayMonthYear4).Some? && InStampRange(Parse(v.value.s, DayMonthYear4).value)))
    ensures v.Some? && v.value.Str? && v.value.s !in NatStrings && r.Ok? ==> r.value == Parse(v.value.s, DayMonthYear4)
    ensures r.Err? ==> r.error == UnreadableDate(v)
  {
    match v
    case None => Ok(None)
    case Some(Str(s)) =>
      if s in NatStrings then Ok(None)
      else
        (match Parse(s, DayMonthYear4)
         case Some(d) => if InStampRange(d) then Ok(Some(d)) else Err(UnreadableDate(v))
         case None => Err(UnreadableDate(v)))
    case Some(Stamp(d)) => if IsValid(d) && InStampRange(d) then Ok(Some(d)) else Err(UnreadableDate(v))
    case Some(_) => Err(UnreadableDate(v))
  }

  /** `.max()` of a list of dates: NaT for the empty list, otherwise one of the dates
      that no other date comes after. */
  function Latest(ds: seq<Date>): (m: Option<Date>)
    ensures m.None? <==> |ds| == 0
    ensures m.Some? ==> m.value in ds && forall d :: d in ds ==> !Before(m.value, d)
  {
    if |ds| == 0 then None
    else
      var last := ds[|ds| - 1];
      assert forall d :: d in ds <==> d in ds[..|ds| - 1] || d == last by {
        assert ds == ds[..|ds| - 1] + [last];
      }
      match Latest(ds[..|ds| - 1])
      case None => Some(last)
      case Some(prev) => if Before(prev, last) then Some(last) else Some(prev)
  }
}
