/** Calendar dates and instants as JavaScript's `Date` represents them
    (section 21.4 of ECMAScript 2024): the proleptic Gregorian calendar in
    UTC, limited to 100,000,000 days either side of 1970-01-01, together
    with the two pieces of `Date` the daily curve uses — `toISOString` and
    parsing the date-only form it produces. */
module Dates {
  import opened Wrappers
  import opened Strings

  datatype Date = Date(year: int, month: int, day: int)

  predicate LeapYear(y: int) {
    y % 4 == 0 && (y % 100 != 0 || y % 400 == 0)
  }

  function DaysInMonth(y: int, m: int): int
    requires 1 <= m <= 12
  {
    if m == 2 then (if LeapYear(y) then 29 else 28)
    else if m == 4 || m == 6 || m == 9 || m == 11 then 30
    else 31
  }

  predicate OnCalendar(d: Date) {
    1 <= d.month <= 12 && 1 <= d.day <= DaysInMonth(d.year, d.month)
  }

  /** Chronological order of calendar days. */
  predicate Before(a: Date, b: Date) {
    || a.year < b.year
    || (a.year == b.year && a.month < b.month)
    || (a.year == b.year && a.month == b.month && a.day < b.day)
  }

  /** The first and last days a time value can fall on
      (time values -8.64e15 and 8.64e15 ms). */
  const Earliest := Date(-271821, 4, 20)
  const Latest := Date(275760, 9, 13)

  predicate Valid(d: Date) {
    OnCalendar(d) && !Before(d, Earliest) && !Before(Latest, d)
  }

  type ValidDate = d: Date | Valid(d) witness Date(1970, 1, 1)

  const MillisPerDay := 86400000

  /** A valid `Date`: the UTC day and the milliseconds since its midnight.
      On the last day only midnight itself is in range. */
  datatype Instant = Instant(date: Date, millis: int)

  predicate ValidInstant(t: Instant) {
    && Valid(t.date)
    && 0 <= t.millis < MillisPerDay
    && (t.date == Latest ==> t.millis == 0)
  }

  type TimeValue = t: Instant | ValidInstant(t) witness Instant(Date(1970, 1, 1), 0)

  // ---------------------------------------------------------------------
  // toISOString

  function Pow10(w: nat): nat {
    if w == 0 then 1 else 10 * Pow10(w - 1)
  }

  /** The last `w` decimal digits of `n`, with leading zeros. */
  function Pad(n: nat, w: nat): (s: string)
    ensures |s| == w && AllDigits(s)
  {
    if w == 0 then "" else Pad(n / 10, w - 1) + [Digit(n % 10)]
  }

  lemma {:induction false} PadValue(n: nat, w: nat)
    requires n < Pow10(w)
    ensures DigitsValue(Pad(n, w)) == n
    decreases w
  {
    if w > 0 {
      assert n == 10 * (n / 10) + n % 10;
      PadValue(n / 10, w - 1);
      var s := Pad(n, w);
      assert s[..|s| - 1] == Pad(n / 10, w - 1);
    }
  }

  /** The year field: four digits for years 0 to 9999, otherwise a sign
      and six digits. */
  function YearText(y: int): (s: string)
    ensures 0 <= y <= 9999 ==> |s| == 4
    ensures !(0 <= y <= 9999) ==> |s| == 7
  {
    if 0 <= y <= 9999 then Pad(y, 4)
    else (if y < 0 then "-" else "+") + Pad(if y < 0 then -y else y, 6)
  }

  /** `YYYY-MM-DD`, the date part of `toISOString`. */
  function IsoDate(d: ValidDate): (s: string)
    ensures |s| == 10 || |s| == 13
    ensures 'T' !in s
  {
    YearText(d.year) + "-" + Pad(d.month, 2) + "-" + Pad(d.day, 2)
  }

  /** `HH:mm:ss.sss`. */
  function TimeText(millis: nat): string {
    Pad(millis / 3600000, 2) + ":" + Pad(millis / 60000 % 60, 2) + ":" +
    Pad(millis / 1000 % 60, 2) + "." + Pad(millis % 1000, 3)
  }

  /** `toISOString()`. */
  function IsoString(t: TimeValue): string {
    IsoDate(t.date) + "T" + TimeText(t.millis) + "Z"
  }

  /** `s.split(c)[0]`: the text before the first `c`. */
  function FirstPiece(s: string, c: char): (p: string)
    ensures |p| <= |s| && p == s[..|p|] && c !in p
    ensures |p| < |s| ==> s[|p|] == c
  {
    if |s| == 0 || s[0] == c then "" else [s[0]] + FirstPiece(s[1..], c)
  }

  lemma {:induction false} FirstPieceBefore(x: string, c: char, rest: string)
    requires c !in x
    ensures FirstPiece(x + [c] + rest, c) == x
    decreases |x|
  {
    if |x| > 0 {
      assert (x + [c] + rest)[1..] == x[1..] + [c] + rest;
      FirstPieceBefore(x[1..], c, rest);
      assert [x[0]] + x[1..] == x;
    }
  }

  /** `toISOString().split("T")[0]` is the UTC calendar day of the instant. */
  lemma DayKeyOfInstant(t: TimeValue)
    ensures FirstPiece(IsoString(t), 'T') == IsoDate(t.date)
  {
    assert IsoString(t) == IsoDate(t.date) + ['T'] + (TimeText(t.millis) + "Z");
    FirstPieceBefore(IsoDate(t.date), 'T', TimeText(t.millis) + "Z");
  }

  // ---------------------------------------------------------------------
  // new Date("YYYY-MM-DD")

  /** The year field of the date-only format; "-000000" is not allowed. */
  function ParseYear(t: string): Option<int> {
    if |t| == 4 && AllDigits(t) then Some(DigitsValue(t))
    else if |t| == 7 && (t[0] == '+' || t[0] == '-') && AllDigits(t[1..]) then
      var v: int := DigitsValue(t[1..]);
      if t[0] == '-' && v == 0 then None
      else Some(if t[0] == '-' then -v else v)
    else None
  }

  /** `new Date(s)` for the date-only ISO format `YYYY-MM-DD` (or the
      six-digit signed year form), read as midnight UTC. Anything else,
      out-of-range fields included, gives an invalid date (None). */
  function ParseIso(s: string): (r: Option<Date>)
    ensures r.Some? ==> Valid(r.value) && (|s| == 10 || |s| == 13)
  {
    if |s| < 6 then None
    else
      var n := |s| - 6;
      var tail := s[n..];
      match ParseYear(s[..n])
      case None => None
      case Some(y) =>
        if tail[0] == '-' && tail[3] == '-' && AllDigits(tail[1..3]) && AllDigits(tail[4..]) then
          var d := Date(y, DigitsValue(tail[1..3]), DigitsValue(tail[4..]));
          if Valid(d) then Some(d) else None
        else None
  }

  lemma YearRoundTrip(y: int)
    requires -999999 <= y <= 999999
    ensures ParseYear(YearText(y)) == Some(y)
  {
    var t := YearText(y);
    if 0 <= y <= 9999 {
      PadValue(y, 4);
    } else {
      var a: nat := if y < 0 then -y else y;
      assert Pow10(6) == 1000000;
      PadValue(a, 6);
      assert t[1..] == Pad(a, 6);
    }
  }

  /** Parsing the date part of `toISOString` gives the same day back. */
  lemma IsoRoundTrip(d: ValidDate)
    ensures ParseIso(IsoDate(d)) == Some(d)
  {
    var s := IsoDate(d);
    var y := YearText(d.year);
    var n := |s| - 6;
    assert n == |y|;
    assert s[..n] == y;
    YearRoundTrip(d.year);
    var tail := s[n..];
    assert tail == "-" + Pad(d.month, 2) + "-" + Pad(d.day, 2);
    assert tail[0] == '-' && tail[3] == '-';
    assert tail[1..3] == Pad(d.month, 2);
    assert tail[4..] == Pad(d.day, 2);
    assert Pow10(2) == 100;
    PadValue(d.month, 2);
    PadValue(d.day, 2);
    assert Date(d.year, d.month, d.day) == d;
  }

  /** Distinct days have distinct ISO texts. */
  lemma IsoInjective(a: ValidDate, b: ValidDate)
    ensures IsoDate(a) == IsoDate(b) <==> a == b
  {
    if IsoDate(a) == IsoDate(b) {
      IsoRoundTrip(a);
      IsoRoundTrip(b);
    }
  }

  // ---------------------------------------------------------------------
  // Comparing dates

  /** An order-preserving number for a day: the difference of two time
      values has the sign of the difference of their ordinals, which is
      all the sort's comparator uses. */
  function Ordinal(d: Date): int {
    d.year * 416 + d.month * 32 + d.day
  }

  lemma OrdinalOrder(a: Date, b: Date)
    requires OnCalendar(a) && OnCalendar(b)
    ensures Before(a, b) <==> Ordinal(a) < Ordinal(b)
    ensures a == b <==> Ordinal(a) == Ordinal(b)
  {
  }
}
