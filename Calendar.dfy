/**
 * The part of the host's `Date` that the validator leans on: reading a
 * 'YYYY-MM-DD' string into a calendar date (Invalid Date when the day does not
 * exist) and comparing two such dates by their time value.
 */
module Calendar {
  import opened Wrappers
  import opened JsRuntime

  datatype CalendarDate = CalendarDate(year: nat, month: nat, day: nat)

  /** Gregorian leap years. */
  predicate IsLeapYear(y: nat) {
    (y % 4 == 0 && y % 100 != 0) || y % 400 == 0
  }

  function DaysInMonth(y: nat, m: nat): (n: nat)
    requires 1 <= m <= 12
    ensures 28 <= n <= 31
  {
    if m == 2 then (if IsLeapYear(y) then 29 else 28)
    else if m == 4 || m == 6 || m == 9 || m == 11 then 30
    else 31
  }

  /** A day that exists on the calendar. */
  predicate IsValidDate(d: CalendarDate) {
    1 <= d.month <= 12 && 1 <= d.day <= DaysInMonth(d.year, d.month)
  }

  /** The regular expression `^\d{4}-\d{2}-\d{2}$`. */
  predicate HasIsoDateShape(s: string) {
    |s| == 10 && AllDigits(s[..4]) && s[4] == '-' && AllDigits(s[5..7]) && s[7] == '-' && AllDigits(s[8..])
  }

  /** The year, month and day fields of a string of the shape `YYYY-MM-DD`. */
  function DateFields(s: string): (d: CalendarDate)
    requires HasIsoDateShape(s)
    ensures d.year <= 9999 && d.month <= 99 && d.day <= 99
  {
    DigitsBound(s[..4]);
    DigitsBound(s[5..7]);
    DigitsBound(s[8..]);
    CalendarDate(DigitsToNat(s[..4]), DigitsToNat(s[5..7]), DigitsToNat(s[8..]))
  }

  /** `new Date(s)` for a date-only ISO string; None stands for an Invalid Date. */
  function ParseIsoDate(s: string): Option<CalendarDate> {
    if HasIsoDateShape(s) && IsValidDate(DateFields(s)) then Some(DateFields(s)) else None
  }

  /** `a <= b` on the time values of two dates at the same time of day. */
  predicate NotAfter(a: CalendarDate, b: CalendarDate) {
    a.year < b.year || (a.year == b.year && (a.month < b.month || (a.month == b.month && a.day <= b.day)))
  }

  /** `NotAfter` is a total order on dates. */
  lemma NotAfterIsTotalOrder(a: CalendarDate, b: CalendarDate, c: CalendarDate)
    ensures NotAfter(a, a)
    ensures NotAfter(a, b) || NotAfter(b, a)
    ensures NotAfter(a, b) && NotAfter(b, a) ==> a == b
    ensures NotAfter(a, b) && NotAfter(b, c) ==> NotAfter(a, c)
  {
  }
}
