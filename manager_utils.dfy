/**
 * The dashboard's hour formatter: a 24-hour clock hour shown as a 12-hour clock hour
 * with its AM/PM period.
 */
module ManagerUtils {
  import opened Maybe
  import opened JsRuntime

  /** "PM" from noon on, "AM" before. */
  function Period(hour: int): string {
    if hour >= 12 then "PM" else "AM"
  }

  /** `hour % 12 || 12`: the remainder (truncating, as `%` does on a number), with 0
      replaced by 12. */
  function DisplayHour(hour: int): (n: int)
    ensures hour >= 0 ==> 1 <= n <= 12 && n % 12 == hour % 12
    ensures hour < 0 ==> -12 < n < 0 || n == 12
  {
    var r := Rem(hour, 12);
    if r == 0 then 12 else r
  }

  /** `convertTo12Hour`: the displayed number immediately followed by the period. */
  function ConvertTo12Hour(hour: int): (s: string)
    ensures |s| >= 3
    ensures s[|s| - 2..] == Period(hour)
    ensures s[..|s| - 2] == IntToString(DisplayHour(hour))
  {
    var text := IntToString(DisplayHour(hour));
    assert (text + Period(hour))[..|text|] == text;
    text + Period(hour)
  }

  /** Reading a 12-hour clock label back: a numeral from 1 to 12, then "AM" or "PM". */
  function From12Hour(s: string): (h: Option<int>)
    ensures h.Some? ==> 0 <= h.value < 24
  {
    if |s| < 3 then None
    else
      var digits := s[..|s| - 2];
      var period := s[|s| - 2..];
      if !(forall i :: 0 <= i < |digits| ==> IsDigit(digits[i])) then None
      else if period != "AM" && period != "PM" then None
      else
        var n := DigitsValue(digits);
        if n < 1 || 12 < n then None
        else Some((if n == 12 then 0 else n) + (if period == "PM" then 12 else 0))
  }

  /** Every hour of the day is recovered from its label, so no two hours share one. */
  lemma FormatRoundTrip(hour: int)
    requires 0 <= hour < 24
    ensures From12Hour(ConvertTo12Hour(hour)) == Some(hour)
  {
    var s := ConvertTo12Hour(hour);
    var n := DisplayHour(hour);
    assert s[..|s| - 2] == NatToString(n);
    DigitsValueOfNatToString(n);
  }

  /** Distinct hours of the day get distinct labels. */
  lemma FormatInjective(a: int, b: int)
    requires 0 <= a < 24 && 0 <= b < 24 && a != b
    ensures ConvertTo12Hour(a) != ConvertTo12Hour(b)
  {
    FormatRoundTrip(a);
    FormatRoundTrip(b);
  }

  /** Midnight is "12AM" and noon is "12PM". */
  lemma MidnightAndNoon()
    ensures ConvertTo12Hour(0) == "12AM"
    ensures ConvertTo12Hour(12) == "12PM"
  {
    assert NatToString(12) == NatToString(1) + [DigitChar(2)];
  }

  /** An hour before noon and the same hour after noon share the number and differ only
      in the period. */
  lemma HalfDays(hour: int)
    requires 0 <= hour < 12
    ensures DisplayHour(hour) == DisplayHour(hour + 12)
    ensures Period(hour) == "AM" && Period(hour + 12) == "PM"
    ensures ConvertTo12Hour(hour + 12) == IntToString(DisplayHour(hour)) + "PM"
  {
  }
}
