/**
 * `parseDate`, the mixed-format date reader that orders occurrences newest
 * first. The source writes it out twice, verbatim (in the map's popup
 * builder and in the history list); the model defines it once and both
 * views use it.
 *
 * The two regular expressions become explicit scanners:
 *   `^(\d{1,2})\/(\d{1,2})\/(\d{4})`  -- `MatchDate`
 *   `(\d{1,2}):(\d{1,2})`             -- `FindTime` (leftmost match)
 */
module Dates {
  import opened Wrappers
  import opened Text
  import opened JsValues

  /** Civil date and time fields, month counted from 0 as the `Date` API does. */
  datatype Civil = Civil(year: int, month0: int, day: int, hour: int, minute: int)

  /**
   * The host's date functions, which the model takes as parameters:
   * `local(y, m0, d, h, mi)` is `new Date(y, m0, d, h, mi).getTime()` in
   * the local time zone; `parse(s)` is `Date.parse(s)`, `None` for NaN;
   * `fields(s)` is `new Date(s)` read back through `getFullYear`,
   * `getMonth`, `getDate`, `getHours` and `getMinutes`, `None` for an
   * invalid date.
   */
  datatype Clock = Clock(
    local: (int, int, int, int, int) -> int,
    parse: string -> Option<int>,
    fields: string -> Option<Civil>)

  /** What `MatchDate` captures: day, month as written (from 1) and year. */
  datatype DayMonthYear = DayMonthYear(day: nat, month: nat, year: nat)

  datatype HourMinute = HourMinute(hour: nat, minute: nat)

  function TwoDigits(a: char, b: char): nat
    requires IsDigit(a) && IsDigit(b)
  {
    DigitValue(a) * 10 + DigitValue(b)
  }

  /**
   * `(\d{1,2})` followed by `sep`, starting at index `i`: the value and the
   * index after the separator. The greedy two-digit try and the one-digit
   * retry exclude each other (one needs a digit where the other needs
   * `sep`), so backtracking never has a second choice to make.
   */
  function FieldThen(s: string, i: nat, sep: char): Option<(nat, nat)>
    requires !IsDigit(sep)
  {
    if i + 2 < |s| && IsDigit(s[i]) && IsDigit(s[i + 1]) && s[i + 2] == sep then
      Some((TwoDigits(s[i], s[i + 1]), i + 3))
    else if i + 1 < |s| && IsDigit(s[i]) && s[i + 1] == sep then
      Some((DigitValue(s[i]), i + 2))
    else None
  }

  /** `s.match(/^(\d{1,2})\/(\d{1,2})\/(\d{4})/)`. */
  function MatchDate(s: string): Option<DayMonthYear> {
    match FieldThen(s, 0, '/')
    case None => None
    case Some((day, p)) =>
      match FieldThen(s, p, '/')
      case None => None
      case Some((month, q)) =>
        if q + 4 <= |s| && AllDigits(s[q..q + 4]) then
          Some(DayMonthYear(day, month, DigitsValue(s[q..q + 4])))
        else None
  }

  /** `(\d{1,2})` read greedily at index `k`, where a digit is known to stand. */
  function MinuteAt(s: string, k: nat): nat
    requires k < |s| && IsDigit(s[k])
  {
    if k + 1 < |s| && IsDigit(s[k + 1]) then TwoDigits(s[k], s[k + 1]) else DigitValue(s[k])
  }

  /** `(\d{1,2}):(\d{1,2})` anchored at index `i`. */
  function TimeAt(s: string, i: nat): Option<HourMinute> {
    if i + 3 < |s| && IsDigit(s[i]) && IsDigit(s[i + 1]) && s[i + 2] == ':' && IsDigit(s[i + 3]) then
      Some(HourMinute(TwoDigits(s[i], s[i + 1]), MinuteAt(s, i + 3)))
    else if i + 2 < |s| && IsDigit(s[i]) && s[i + 1] == ':' && IsDigit(s[i + 2]) then
      Some(HourMinute(DigitValue(s[i]), MinuteAt(s, i + 2)))
    else None
  }

  /** The leftmost match of `(\d{1,2}):(\d{1,2})` at or after index `i`. */
  function FindTime(s: string, i: nat): Option<HourMinute>
    decreases |s| - i
  {
    if i >= |s| then None
    else if TimeAt(s, i).Some? then TimeAt(s, i)
    else FindTime(s, i + 1)
  }

  /**
   * `FindTime` reports the match at the leftmost index that has one, and
   * finds nothing exactly when no index has one.
   */
  lemma {:induction false} FindTimeLeftmost(s: string, i: nat) returns (at: nat)
    decreases |s| - i
    ensures FindTime(s, i).Some? ==>
      i <= at < |s| && TimeAt(s, at) == FindTime(s, i)
      && forall k :: i <= k < at ==> TimeAt(s, k).None?
    ensures FindTime(s, i).None? ==> forall k :: i <= k ==> TimeAt(s, k).None?
  {
    if i >= |s| {
      at := i;
    } else if TimeAt(s, i).Some? {
      at := i;
    } else {
      at := FindTimeLeftmost(s, i + 1);
    }
  }

  /**
   * `parseDate(dateStr)`: 0 for a falsy input; the local instant of a
   * leading `D[D]/M[M]/YYYY` (hour and minute from the leftmost
   * `H[H]:M[M]`, else midnight); otherwise `Date.parse`, 0 for NaN.
   */
  function ParseDate(clock: Clock, v: Value): (r: int)
    ensures !Truthy(v) ==> r == 0
  {
    if !Truthy(v) then 0
    else
      var str := Trim(JsString(v));
      match MatchDate(str)
      case Some(dmy) =>
        var hm := FindTime(str, 0).GetOr(HourMinute(0, 0));
        clock.local(dmy.year, dmy.month - 1, dmy.day, hm.hour, hm.minute)
      case None =>
        clock.parse(str).GetOr(0)
  }

  /** The key that sorts newest first under an ascending sort. */
  function NewestFirstKey(clock: Clock, v: Value): int {
    -ParseDate(clock, v)
  }

  // ---------------------------------------------------------------------
  // Calendar validity and the ordering hypothesis

  function DaysInMonth(year: int, month0: int): int
    requires 0 <= month0 < 12
  {
    if month0 == 1 then
      (if (year % 4 == 0 && year % 100 != 0) || year % 400 == 0 then 29 else 28)
    else if month0 == 3 || month0 == 5 || month0 == 8 || month0 == 10 then 30
    else 31
  }

  /** Fields the `Date` getters can report for a valid date. */
  predicate ValidCivil(c: Civil) {
    0 <= c.month0 < 12 && 1 <= c.day <= DaysInMonth(c.year, c.month0)
    && 0 <= c.hour < 24 && 0 <= c.minute < 60
  }

  /** Lexicographic order of civil fields: strictly earlier. */
  predicate Earlier(a: Civil, b: Civil) {
    a.year < b.year
    || (a.year == b.year && a.month0 < b.month0)
    || (a.year == b.year && a.month0 == b.month0 && a.day < b.day)
    || (a.year == b.year && a.month0 == b.month0 && a.day == b.day && a.hour < b.hour)
    || (a.year == b.year && a.month0 == b.month0 && a.day == b.day && a.hour == b.hour && a.minute < b.minute)
  }

  function LocalOf(clock: Clock, c: Civil): int {
    clock.local(c.year, c.month0, c.day, c.hour, c.minute)
  }

  /** A year the date pattern's `\d{4}` captures whole and `new Date` takes as written. */
  predicate FourDigitYear(c: Civil) {
    1000 <= c.year <= 9999
  }

  /**
   * The local-time constructor is strictly increasing over valid fields
   * with four-digit years. Outside them it is not: `new Date` reads the
   * years 0 to 99 as 1900 to 1999. Within them a stand-in clock that
   * orders fields as a calendar does satisfies it (`MonotoneSatisfiable`);
   * a daylight-saving gap breaks it, so it is a hypothesis, not a fact.
   */
  ghost predicate Monotone(clock: Clock) {
    forall a: Civil, b: Civil ::
      ValidCivil(a) && ValidCivil(b) && FourDigitYear(a) && FourDigitYear(b) && Earlier(a, b) ==>
        LocalOf(clock, a) < LocalOf(clock, b)
  }

  /** `new Date`'s reading of a year: 0 to 99 stand for 1900 to 1999. */
  function CenturyShift(year: int): int {
    if 0 <= year <= 99 then 1900 + year else year
  }

  /**
   * A count of minutes with a gap after every month and day, which orders
   * fields as a calendar does.
   */
  function MinuteIndex(y: int, m0: int, d: int, h: int, mi: int): int {
    (((CenturyShift(y) * 12 + m0) * 32 + d) * 24 + h) * 60 + mi
  }

  /**
   * A stand-in clock, not a real time zone: an offset plus the minute
   * count of `MinuteIndex` (32-day months, 12·32-day years) in
   * milliseconds. It orders fields as a calendar does, shifts two-digit
   * years as `new Date` does, and parses nothing.
   */
  function FixedOffsetClock(offset: int): Clock {
    Clock((y: int, m0: int, d: int, h: int, mi: int) => offset + MinuteIndex(y, m0, d, h, mi) * 60000,
          (s: string) => None,
          (s: string) => None)
  }

  lemma MinuteIndexIncreasing(a: Civil, b: Civil)
    requires ValidCivil(a) && ValidCivil(b) && FourDigitYear(a) && FourDigitYear(b) && Earlier(a, b)
    ensures MinuteIndex(a.year, a.month0, a.day, a.hour, a.minute) < MinuteIndex(b.year, b.month0, b.day, b.hour, b.minute)
  {
    assert DaysInMonth(a.year, a.month0) <= 31 && DaysInMonth(b.year, b.month0) <= 31;
    var ma, mb := a.year * 12 + a.month0, b.year * 12 + b.month0;
    var da, db := ma * 32 + a.day, mb * 32 + b.day;
    var ha, hb := da * 24 + a.hour, db * 24 + b.hour;
    assert ma < mb || (ma == mb && a.month0 == b.month0);
    assert da < db || (da == db && a.day == b.day && ma == mb);
    assert ha < hb || (ha == hb && a.hour == b.hour && da == db);
  }

  /**
   * The ordering hypothesis is consistent with the two-digit year shift:
   * the stand-in clock `FixedOffsetClock` satisfies it, although it dates
   * year 99 in 1999.
   */
  lemma MonotoneSatisfiable(offset: int)
    ensures Monotone(FixedOffsetClock(offset))
    ensures LocalOf(FixedOffsetClock(offset), Civil(99, 0, 1, 0, 0)) == LocalOf(FixedOffsetClock(offset), Civil(1999, 0, 1, 0, 0))
  {
    forall a: Civil, b: Civil | ValidCivil(a) && ValidCivil(b) && FourDigitYear(a) && FourDigitYear(b) && Earlier(a, b)
      ensures LocalOf(FixedOffsetClock(offset), a) < LocalOf(FixedOffsetClock(offset), b)
    {
      MinuteIndexIncreasing(a, b);
    }
  }

  // ---------------------------------------------------------------------
  // Behaviour on representative inputs

  /**
   * A text whose trimmed form the date scanner accepts is read as the local
   * instant of the captured fields, the month shifted to count from 0, at
   * the time the time scanner finds, or at midnight when it finds none.
   */
  lemma ParseDateOfMatch(clock: Clock, v: Value, s: string, dmy: DayMonthYear, hm: HourMinute)
    requires Truthy(v) && Trim(JsString(v)) == s && MatchDate(s) == Some(dmy)
    requires FindTime(s, 0).GetOr(HourMinute(0, 0)) == hm
    ensures ParseDate(clock, v) == clock.local(dmy.year, dmy.month - 1, dmy.day, hm.hour, hm.minute)
  {
  }

  /** `"25/12/2024 14:30"` is 14:30 local time on 25 December 2024. */
  lemma ParseDateBrazilian(clock: Clock)
    ensures ParseDate(clock, Str("25/12/2024 14:30")) == clock.local(2024, 11, 25, 14, 30)
  {
    var s := "25/12/2024 14:30";
    TrimNoop(s);
    Year2024(s, 6);
    var dmy := DayMonthYear(25, 12, 2024);
    assert MatchDate(s) == Some(dmy);
    NoTimeBefore(s, 11);
    var hm := HourMinute(14, 30);
    assert TimeAt(s, 11) == Some(hm);
    ParseDateOfMatch(clock, Str(s), s, dmy, hm);
  }

  /** A date without a time, surrounded by blanks, reads as midnight. */
  lemma ParseDateMidnight(clock: Clock)
    ensures ParseDate(clock, Str(" 1/2/2024 ")) == clock.local(2024, 1, 1, 0, 0)
  {
    MidnightText();
    ParseDateOfMatch(clock, Str(" 1/2/2024 "), "1/2/2024", DayMonthYear(1, 2, 2024), HourMinute(0, 0));
  }

  /** What the scanners find in " 1/2/2024 ": the trimmed date and no time. */
  lemma MidnightText()
    ensures Trim(" 1/2/2024 ") == "1/2/2024"
    ensures MatchDate("1/2/2024") == Some(DayMonthYear(1, 2, 2024))
    ensures FindTime("1/2/2024", 0).GetOr(HourMinute(0, 0)) == HourMinute(0, 0)
  {
    MidnightTrim();
    MidnightScan("1/2/2024");
  }

  lemma MidnightTrim()
    ensures Trim(" 1/2/2024 ") == "1/2/2024"
  {
    var s := "1/2/2024";
    TrimBlanks(s);
    assert " " + s + " " == " 1/2/2024 ";
  }

  lemma MidnightScan(s: string)
    requires s == "1/2/2024"
    ensures MatchDate(s) == Some(DayMonthYear(1, 2, 2024))
    ensures FindTime(s, 0).GetOr(HourMinute(0, 0)) == HourMinute(0, 0)
  {
    Year2024(s, 4);
    assert MatchDate(s) == Some(DayMonthYear(1, 2, 2024));
    NoTimeBefore(s, |s|);
  }

  /** One blank on each side of a word is trimmed away. */
  lemma TrimBlanks(s: string)
    requires s != [] && !IsWhitespace(s[0]) && !IsWhitespace(s[|s| - 1])
    ensures Trim(" " + s + " ") == s
  {
    var t := " " + s + " ";
    assert t[1..] == s + " ";
    assert TrimStart(t) == s + " ";
    assert (s + " ")[..|s|] == s;
    assert TrimEnd(s + " ") == TrimEnd(s);
  }

  /** `"2024"` written at index `i` of `s`. */
  lemma Year2024(s: string, i: nat)
    requires i + 4 <= |s| && s[i] == '2' && s[i + 1] == '0' && s[i + 2] == '2' && s[i + 3] == '4'
    ensures AllDigits(s[i..i + 4]) && DigitsValue(s[i..i + 4]) == 2024
  {
    FourDigitsValue(s[i..i + 4]);
  }

  /** The value of a four-digit run, digit by digit. */
  lemma FourDigitsValue(y: string)
    requires |y| == 4 && AllDigits(y)
    ensures DigitsValue(y) == DigitValue(y[0]) * 1000 + DigitValue(y[1]) * 100 + DigitValue(y[2]) * 10 + DigitValue(y[3])
  {
    assert y[..3][..2] == y[..2];
    assert y[..2][..1] == y[..1];
    assert y[..1][..0] == [] && DigitsValue(y[..1][..0]) == 0;
    var a := DigitsValue(y[..1]);
    var b := DigitsValue(y[..2]);
    var c := DigitsValue(y[..3]);
    assert a == DigitValue(y[0]);
    assert b == a * 10 + DigitValue(y[1]);
    assert c == b * 10 + DigitValue(y[2]);
    assert DigitsValue(y) == c * 10 + DigitValue(y[3]);
  }

  /** No `H[H]:M[M]` starts before index `j` when no ':' stands before `j + 1`. */
  lemma NoTimeBefore(s: string, j: nat)
    requires j <= |s|
    requires forall k :: 1 <= k <= j + 1 && k < |s| ==> s[k] != ':'
    ensures forall k :: 0 <= k < j ==> TimeAt(s, k).None?
    ensures FindTime(s, 0) == FindTime(s, j)
  {
    var k := j;
    while k > 0
      invariant 0 <= k <= j
      invariant FindTime(s, k) == FindTime(s, j)
      invariant forall i :: k <= i < j ==> TimeAt(s, i).None?
      decreases k
    {
      k := k - 1;
    }
  }

  /**
   * Any truthy value whose trimmed text has no leading `D/M/YYYY` date
   * reads as what the generic parser gives, and 0 when it gives NaN.
   */
  lemma ParseDateFallback(clock: Clock, v: Value)
    requires Truthy(v) && MatchDate(Trim(JsString(v))).None?
    ensures ParseDate(clock, v) == clock.parse(Trim(JsString(v))).GetOr(0)
    ensures clock.parse(Trim(JsString(v))).None? ==> ParseDate(clock, v) == 0
  {
  }

  /** An ISO-8601 string goes to the generic parser. */
  lemma ParseDateIso(clock: Clock)
    ensures ParseDate(clock, Str("2024-12-25T14:30:00Z")) == clock.parse("2024-12-25T14:30:00Z").GetOr(0)
  {
    var s := "2024-12-25T14:30:00Z";
    TrimNoop(s);
    assert FieldThen(s, 0, '/').None?;
  }

  /** A falsy input, and text the generic parser rejects, both read as 0. */
  lemma ParseDateUnknown(clock: Clock)
    requires clock.parse("garbage").None?
    ensures ParseDate(clock, Str("garbage")) == 0
    ensures ParseDate(clock, Str("")) == 0 && ParseDate(clock, Null) == 0
  {
    TrimNoop("garbage");
  }
}
