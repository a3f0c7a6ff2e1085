/**
 * Calendar dates and the completed-years age of an actor (`calculateAge` in script.js).
 * Dates are (year, month, day) triples that have already been parsed; the model does not
 * parse date text.
 */
module Dates {
  import opened Wrappers

  datatype Date = Date(year: int, month: int, day: int)

  /** Gregorian leap years (the proleptic calendar that JavaScript's `Date` uses). */
  predicate IsLeapYear(y: int) {
    y % 4 == 0 && (y % 100 != 0 || y % 400 == 0)
  }

  /** The length of month `m` of year `y` in the Gregorian calendar. */
  function DaysInMonth(y: int, m: int): (n: int)
    requires 1 <= m <= 12
    ensures 28 <= n <= 31
    ensures n == 29 <==> m == 2 && IsLeapYear(y)
    ensures m == 2 ==> n == (if IsLeapYear(y) then 29 else 28)
    ensures m in {4, 6, 9, 11} ==> n == 30
    ensures m in {1, 3, 5, 7, 8, 10, 12} ==> n == 31
  {
    if m == 2 then (if IsLeapYear(y) then 29 else 28)
    else if m == 4 || m == 6 || m == 9 || m == 11 then 30
    else 31
  }

  /** A triple that names a real day of the calendar. */
  predicate ValidDate(d: Date) {
    1 <= d.month <= 12 && 1 <= d.day <= DaysInMonth(d.year, d.month)
  }

  /** A date that parsed successfully. */
  type CalendarDate = d: Date | ValidDate(d) witness Date(1970, 1, 1)

  /** `a` is strictly earlier than `b`: lexicographic order on (year, month, day). */
  predicate Precedes(a: Date, b: Date) {
    a.year < b.year || (a.year == b.year && (a.month < b.month || (a.month == b.month && a.day < b.day)))
  }

  /** `a` is not later than `b`. */
  predicate NotAfter(a: Date, b: Date) {
    !Precedes(b, a)
  }

  lemma {:induction false} PrecedesIsStrictTotalOrder(a: Date, b: Date, c: Date)
    ensures !Precedes(a, a)
    ensures Precedes(a, b) ==> !Precedes(b, a)
    ensures Precedes(a, b) && Precedes(b, c) ==> Precedes(a, c)
    ensures a != b ==> Precedes(a, b) || Precedes(b, a)
  {
  }

  /** The day on which someone born on `birth` turns `n`, as a triple (29 February stays 29 February). */
  function Anniversary(birth: Date, n: int): (r: Date)
    ensures r.year - birth.year == n && r.month == birth.month && r.day == birth.day
  {
    Date(birth.year + n, birth.month, birth.day)
  }

  /**
   * The reference meaning of an age: `n` anniversaries of `birth` have passed by `end`,
   * and the next one has not.
   */
  predicate IsAgeAt(birth: Date, end: Date, n: int) {
    NotAfter(Anniversary(birth, n), end) && Precedes(end, Anniversary(birth, n + 1))
  }

  /** At most one number of completed years fits a given birth and end date. */
  lemma {:induction false} AgeIsUnique(birth: Date, end: Date, n: int, k: int)
    requires IsAgeAt(birth, end, n) && IsAgeAt(birth, end, k)
    ensures n == k
  {
  }

  /**
   * The arithmetic of `calculateAge`: the difference of the years, one less when the end date's
   * month, or its day within the same month, comes before the birth date's.
   */
  function YearsBetween(birth: Date, end: Date): (age: int)
    ensures IsAgeAt(birth, end, age)
  {
    var age := end.year - birth.year;
    var m := end.month - birth.month;
    if m < 0 || (m == 0 && end.day < birth.day) then age - 1 else age
  }

  /** The end of a life span: the death date when there is one, "now" otherwise. */
  function EndDate(death: Option<Date>, now: Date): (end: Date)
    ensures death.Some? ==> end == death.value
    ensures death.None? ==> end == now
  {
    if death.Some? then death.value else now
  }

  /**
   * `calculateAge(birthDate, deathDate)`: `birth` is the parsed birth date (None when it is not
   * a valid date), `death` the parsed death date (None when the field is missing or empty), and
   * `now` the current date, which the source reads from the clock.
   */
  function CalculateAge(birth: Option<Date>, death: Option<Date>, now: Date): (age: Option<int>)
    ensures age.None? <==> birth.None?
    ensures age.Some? ==> IsAgeAt(birth.value, EndDate(death, now), age.value)
  {
    if birth.None? then None else Some(YearsBetween(birth.value, EndDate(death, now)))
  }

  /** Nobody is younger than zero at a date that is not before their birth. */
  lemma {:induction false} AgeNonNegative(birth: Date, end: Date)
    requires NotAfter(birth, end)
    ensures YearsBetween(birth, end) >= 0
  {
  }

  /** Age never decreases as the end date moves later. */
  lemma {:induction false} AgeIsMonotonic(birth: Date, e1: Date, e2: Date)
    requires NotAfter(e1, e2)
    ensures YearsBetween(birth, e1) <= YearsBetween(birth, e2)
  {
  }

  /** On the n-th anniversary the age is exactly n, and on any earlier day it is n - 1 or less. */
  lemma {:induction false} AgeOnAnniversary(birth: Date, n: int, end: Date)
    ensures YearsBetween(birth, Anniversary(birth, n)) == n
    ensures Precedes(end, Anniversary(birth, n)) ==> YearsBetween(birth, end) < n
  {
    var a := Anniversary(birth, n);
    AgeIsUnique(birth, a, YearsBetween(birth, a), n);
  }

  /** The worked examples: born 2000-06-15, 19 on 2020-06-14, 20 on 2020-06-15, with or without a death date. */
  lemma AgeExamples()
    ensures CalculateAge(Some(Date(2000, 6, 15)), Some(Date(2020, 6, 14)), Date(2026, 1, 1)) == Some(19)
    ensures CalculateAge(Some(Date(2000, 6, 15)), Some(Date(2020, 6, 15)), Date(2026, 1, 1)) == Some(20)
    ensures CalculateAge(Some(Date(2000, 6, 15)), None, Date(2020, 6, 15)) == Some(20)
    ensures CalculateAge(None, None, Date(2020, 6, 15)) == None
  {
  }
}
