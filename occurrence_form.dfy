/**
 * The entry form for a new occurrence: its default fields, the render
 * gate, and the submit handler that stamps the record with a
 * `DD/MM/YYYY HH:MM` timestamp -- exactly the shape the first branch of
 * `parseDate` reads back.
 */
module OccurrenceForm {
  import opened Wrappers
  import opened Text
  import opened JsValues
  import opened Records
  import opened Dates
  import opened MapArea

  /** The controlled fields of the form; `data` is the `datetime-local` input's text. */
  datatype FormData = FormData(tipo: string, status: string, descricao: string, km: string, local: string, data: string)

  /** What `onSave` receives: the form fields, the formatted timestamp and the picked position. */
  datatype Submission = Submission(form: FormData, dataHora: string, coordinates: LatLng)

  /** The outcome of one submit: the record handed to `onSave` and the form's next contents. */
  datatype Submitted = Submitted(saved: Submission, next: FormData)

  const DefaultStatus := "Não Resolvido"

  /**
   * The initial and reset contents; `nowIso` is `new Date().toISOString()`,
   * of which the first 16 characters (`YYYY-MM-DDTHH:MM`) are kept.
   */
  function Defaults(nowIso: string): (r: FormData)
    ensures r.tipo == "Novo Registro" && r.local == "Rodovia BR-101"
    ensures r.status == DefaultStatus && r.descricao == "" && r.km == ""
    ensures |r.data| <= 16 && StartsWith(nowIso, r.data)
    ensures |nowIso| >= 16 ==> |r.data| == 16
  {
    var n := if |nowIso| < 16 then |nowIso| else 16;
    FormData("Novo Registro", DefaultStatus, "", "", "Rodovia BR-101", nowIso[..n])
  }

  /** The modal renders only while it is open and a position has been picked. */
  predicate Shown(isOpen: bool, coordinates: Option<LatLng>) {
    isOpen && coordinates.Some?
  }

  // ---------------------------------------------------------------------
  // The timestamp

  /** `String(n).padStart(2, '0')`. */
  function Pad2(n: int): (r: string)
    ensures |r| >= 2
    ensures 0 <= n < 100 ==> |r| == 2
    ensures n >= 0 ==> |r| >= 2 && AllDigits(r)
    ensures 0 <= n < 10 ==> r[0] == '0'
  {
    var s := IntToDecimal(n);
    assert 10 <= n < 100 ==> |s| == 2 by {
      if 10 <= n < 100 { assert |NatToDecimal(n / 10)| == 1; }
    }
    if |s| < 2 then "0" + s else s
  }

  /**
   * The template literal of `handleSubmit` over the getters of
   * `new Date(formData.data)`; an invalid date makes every getter NaN.
   */
  function Format(fields: Option<Civil>): (r: string)
    ensures fields.None? ==> MatchDate(r).None?
    ensures fields.Some? && Writable(fields.value) ==> |r| == 16
  {
    match fields
    case None => "NaN/NaN/NaN NaN:NaN"
    case Some(c) =>
      assert FourDigitYear(c) ==> |IntToDecimal(c.year)| == 4 by {
        if FourDigitYear(c) { YearDigits(c.year); }
      }
      Pad2(c.day) + "/" + Pad2(c.month0 + 1) + "/" + IntToDecimal(c.year) + " " + Pad2(c.hour) + ":" + Pad2(c.minute)
  }

  /** `handleSubmit`: save the fields with the timestamp and position, then reset the form. */
  function HandleSubmit(form: FormData, coordinates: LatLng, clock: Clock, nowIso: string): (r: Submitted)
    ensures r.saved.form == form && r.saved.coordinates == coordinates
    ensures r.saved.dataHora == Format(clock.fields(form.data))
    ensures r.next == Defaults(nowIso)
  {
    Submitted(Submission(form, Format(clock.fields(form.data)), coordinates), Defaults(nowIso))
  }

  // ---------------------------------------------------------------------
  // Properties of the timestamp

  /** A two-digit field is written as exactly two digits that read back as the field. */
  lemma Pad2Digits(n: int)
    requires 0 <= n < 100
    ensures |Pad2(n)| == 2 && IsDigit(Pad2(n)[0]) && IsDigit(Pad2(n)[1])
    ensures TwoDigits(Pad2(n)[0], Pad2(n)[1]) == n
  {
    if n >= 10 {
      assert NatToDecimal(n) == NatToDecimal(n / 10) + [DigitChar(n % 10)];
      assert NatToDecimal(n / 10) == [DigitChar(n / 10)];
    }
  }

  /** A four-digit year is written as four digits that read back as the year. */
  lemma YearDigits(y: int)
    requires 1000 <= y <= 9999
    ensures |IntToDecimal(y)| == 4 && AllDigits(IntToDecimal(y)) && DigitsValue(IntToDecimal(y)) == y
  {
    DecimalLength(y, 4, Pow10(4));
    DecimalLengthAtLeast(y, 4, Pow10(3));
    DecimalRoundTrip(y);
  }

  /** The valid, four-digit-year fields whose timestamp the parser reads back exactly. */
  predicate Writable(c: Civil) {
    ValidCivil(c) && FourDigitYear(c)
  }

  /** The character-level shape of a timestamp written from writable fields. */
  lemma FormatShape(c: Civil)
    requires Writable(c)
    ensures var s := Format(Some(c));
      && |s| == 16 && s[2] == '/' && s[5] == '/' && s[10] == ' ' && s[13] == ':'
      && IsDigit(s[0]) && IsDigit(s[1]) && IsDigit(s[3]) && IsDigit(s[4])
      && IsDigit(s[11]) && IsDigit(s[12]) && IsDigit(s[14]) && IsDigit(s[15])
      && AllDigits(s[6..10])
      && TwoDigits(s[0], s[1]) == c.day && TwoDigits(s[3], s[4]) == c.month0 + 1
      && DigitsValue(s[6..10]) == c.year
      && TwoDigits(s[11], s[12]) == c.hour && TwoDigits(s[14], s[15]) == c.minute
  {
    var d, m, y, h, mi := Pad2(c.day), Pad2(c.month0 + 1), IntToDecimal(c.year), Pad2(c.hour), Pad2(c.minute);
    Pad2Digits(c.day);
    Pad2Digits(c.month0 + 1);
    YearDigits(c.year);
    Pad2Digits(c.hour);
    Pad2Digits(c.minute);
    var s := Format(Some(c));
    assert s == d + "/" + m + "/" + y + " " + h + ":" + mi;
    assert s[6..10] == y;
  }

  /** The date scanner reads the day, the month as written and the year of a timestamp. */
  lemma MatchFormatted(s: string, c: Civil)
    requires |s| == 16 && s[2] == '/' && s[5] == '/'
    requires IsDigit(s[0]) && IsDigit(s[1]) && IsDigit(s[3]) && IsDigit(s[4]) && AllDigits(s[6..10])
    requires TwoDigits(s[0], s[1]) == c.day && TwoDigits(s[3], s[4]) == c.month0 + 1
    requires DigitsValue(s[6..10]) == c.year
    ensures MatchDate(s) == Some(DayMonthYear(c.day, c.month0 + 1, c.year))
  {
  }

  /** The time scanner's leftmost match in a timestamp is its hour and minute. */
  lemma FindFormattedTime(s: string, c: Civil)
    requires |s| == 16 && s[2] == '/' && s[5] == '/' && s[10] == ' ' && s[13] == ':'
    requires IsDigit(s[0]) && IsDigit(s[1]) && IsDigit(s[3]) && IsDigit(s[4]) && AllDigits(s[6..10])
    requires IsDigit(s[11]) && IsDigit(s[12]) && IsDigit(s[14]) && IsDigit(s[15])
    requires TwoDigits(s[11], s[12]) == c.hour && TwoDigits(s[14], s[15]) == c.minute
    ensures FindTime(s, 0) == Some(HourMinute(c.hour, c.minute))
  {
    forall k | 6 <= k < 10
      ensures IsDigit(s[k])
    {
      assert s[k] == s[6..10][k - 6];
    }
    NoTimeBefore(s, 11);
    assert TimeAt(s, 11) == Some(HourMinute(c.hour, c.minute));
  }

  /**
   * The round trip: the timestamp written for writable fields is read by
   * `parseDate` as the local instant of exactly those fields.
   */
  lemma FormatParseRoundTrip(clock: Clock, c: Civil)
    requires Writable(c)
    ensures ParseDate(clock, Str(Format(Some(c)))) == LocalOf(clock, c)
  {
    var s := Format(Some(c));
    FormatScans(c);
    ParseDateOfMatch(clock, Str(s), s, DayMonthYear(c.day, c.month0 + 1, c.year), HourMinute(c.hour, c.minute));
  }

  /** What the scanners of `parseDate` find in the timestamp of writable fields. */
  lemma FormatScans(c: Civil)
    requires Writable(c)
    ensures var s := Format(Some(c));
      Trim(s) == s && MatchDate(s) == Some(DayMonthYear(c.day, c.month0 + 1, c.year))
      && FindTime(s, 0) == Some(HourMinute(c.hour, c.minute))
  {
    FormatShape(c);
    ShapeScans(Format(Some(c)), c);
  }

  lemma ShapeScans(s: string, c: Civil)
    requires |s| == 16 && s[2] == '/' && s[5] == '/' && s[10] == ' ' && s[13] == ':'
    requires IsDigit(s[0]) && IsDigit(s[1]) && IsDigit(s[3]) && IsDigit(s[4]) && AllDigits(s[6..10])
    requires IsDigit(s[11]) && IsDigit(s[12]) && IsDigit(s[14]) && IsDigit(s[15])
    requires TwoDigits(s[0], s[1]) == c.day && TwoDigits(s[3], s[4]) == c.month0 + 1
    requires DigitsValue(s[6..10]) == c.year
    requires TwoDigits(s[11], s[12]) == c.hour && TwoDigits(s[14], s[15]) == c.minute
    ensures Trim(s) == s && MatchDate(s) == Some(DayMonthYear(c.day, c.month0 + 1, c.year))
    ensures FindTime(s, 0) == Some(HourMinute(c.hour, c.minute))
  {
    MatchFormatted(s, c);
    FindFormattedTime(s, c);
    TrimNoop(s);
  }

  /**
   * With a monotone clock, a record stamped at earlier writable fields
   * reads as strictly older, so the history and the popups list it after
   * the later one.
   */
  lemma FormatKeepsOrder(clock: Clock, a: Civil, b: Civil)
    requires Monotone(clock) && Writable(a) && Writable(b) && Earlier(a, b)
    ensures ParseDate(clock, Str(Format(Some(a)))) < ParseDate(clock, Str(Format(Some(b))))
    ensures NewestFirstKey(clock, Str(Format(Some(b)))) < NewestFirstKey(clock, Str(Format(Some(a))))
  {
    FormatParseRoundTrip(clock, a);
    FormatParseRoundTrip(clock, b);
  }

  /** A five-digit year is written as five digits. */
  lemma LongYearDigits(y: int)
    requires 10000 <= y <= 99999
    ensures |IntToDecimal(y)| == 5 && AllDigits(IntToDecimal(y)) && DigitsValue(IntToDecimal(y)[..4]) == y / 10
  {
    var d := IntToDecimal(y);
    DecimalLength(y, 5, Pow10(5));
    DecimalLengthAtLeast(y, 5, Pow10(4));
    DecimalRoundTrip(y);
    assert d[..|d|] == d;
    assert forall k :: 0 <= k < 4 ==> d[..4][k] == d[k];
  }

  /** The character-level shape of a timestamp written with a five-digit year. */
  lemma LongFormatShape(c: Civil)
    requires ValidCivil(c) && 10000 <= c.year <= 99999
    ensures var s := Format(Some(c));
      && |s| == 17 && s[2] == '/' && s[5] == '/' && s[11] == ' ' && s[14] == ':'
      && IsDigit(s[0]) && IsDigit(s[1]) && IsDigit(s[3]) && IsDigit(s[4]) && IsDigit(s[10])
      && IsDigit(s[12]) && IsDigit(s[13]) && IsDigit(s[15]) && IsDigit(s[16])
      && AllDigits(s[6..10])
      && TwoDigits(s[0], s[1]) == c.day && TwoDigits(s[3], s[4]) == c.month0 + 1
      && DigitsValue(s[6..10]) == c.year / 10
      && TwoDigits(s[12], s[13]) == c.hour && TwoDigits(s[15], s[16]) == c.minute
  {
    var d, m, y, h, mi := Pad2(c.day), Pad2(c.month0 + 1), IntToDecimal(c.year), Pad2(c.hour), Pad2(c.minute);
    Pad2Digits(c.day);
    Pad2Digits(c.month0 + 1);
    LongYearDigits(c.year);
    Pad2Digits(c.hour);
    Pad2Digits(c.minute);
    var s := Format(Some(c));
    assert s == d + "/" + m + "/" + y + " " + h + ":" + mi;
    assert s[6..10] == y[..4];
    assert s[10] == y[4];
  }

  /** The time scanner's leftmost match in a five-digit-year timestamp is its hour and minute. */
  lemma FindLongFormattedTime(s: string, c: Civil)
    requires |s| == 17 && s[2] == '/' && s[5] == '/' && s[11] == ' ' && s[14] == ':'
    requires IsDigit(s[0]) && IsDigit(s[1]) && IsDigit(s[3]) && IsDigit(s[4]) && AllDigits(s[6..10]) && IsDigit(s[10])
    requires IsDigit(s[12]) && IsDigit(s[13]) && IsDigit(s[15]) && IsDigit(s[16])
    requires TwoDigits(s[12], s[13]) == c.hour && TwoDigits(s[15], s[16]) == c.minute
    ensures FindTime(s, 0) == Some(HourMinute(c.hour, c.minute))
  {
    forall k | 6 <= k < 10
      ensures IsDigit(s[k])
    {
      assert s[k] == s[6..10][k - 6];
    }
    NoTimeBefore(s, 12);
    assert TimeAt(s, 12) == Some(HourMinute(c.hour, c.minute));
  }

  /**
   * Past year 9999 the round trip breaks: the date pattern takes only the
   * first four digits of the year, so a timestamp written in year 20250
   * reads back in year 2025.
   */
  lemma LongYearMisread(clock: Clock, c: Civil)
    requires ValidCivil(c) && 10000 <= c.year <= 99999
    ensures ParseDate(clock, Str(Format(Some(c)))) == LocalOf(clock, c.(year := c.year / 10))
  {
    var s := Format(Some(c));
    LongFormatShape(c);
    LongShapeScans(s, c);
    ParseDateOfMatch(clock, Str(s), s, DayMonthYear(c.day, c.month0 + 1, c.year / 10), HourMinute(c.hour, c.minute));
  }

  lemma LongShapeScans(s: string, c: Civil)
    requires |s| == 17 && s[2] == '/' && s[5] == '/' && s[11] == ' ' && s[14] == ':'
    requires IsDigit(s[0]) && IsDigit(s[1]) && IsDigit(s[3]) && IsDigit(s[4]) && IsDigit(s[10])
    requires IsDigit(s[12]) && IsDigit(s[13]) && IsDigit(s[15]) && IsDigit(s[16])
    requires AllDigits(s[6..10])
    requires TwoDigits(s[0], s[1]) == c.day && TwoDigits(s[3], s[4]) == c.month0 + 1
    requires DigitsValue(s[6..10]) == c.year / 10
    requires TwoDigits(s[12], s[13]) == c.hour && TwoDigits(s[15], s[16]) == c.minute
    ensures Trim(s) == s && MatchDate(s) == Some(DayMonthYear(c.day, c.month0 + 1, c.year / 10))
    ensures FindTime(s, 0) == Some(HourMinute(c.hour, c.minute))
  {
    assert FieldThen(s, 0, '/') == Some((c.day, 3));
    assert FieldThen(s, 3, '/') == Some((c.month0 + 1, 6));
    FindLongFormattedTime(s, c);
    TrimNoop(s);
  }

  /** The timestamp of an invalid date is not a date to the first branch: it goes to `Date.parse`. */
  lemma InvalidDateFallsThrough(clock: Clock)
    ensures ParseDate(clock, Str(Format(None))) == clock.parse(Format(None)).GetOr(0)
  {
    var s := Format(None);
    TrimNoop(s);
    assert FieldThen(s, 0, '/').None?;
  }

  /** The default status is pending: it ranks 2 on the map and draws red. */
  lemma DefaultStatusPending(nowIso: string)
    ensures Score(Some(Defaults(nowIso).status)) == 2
    ensures MarkerColor(Some(Defaults(nowIso).status)) == Red
  {
    NotResolvedAboveResolved();
    MarkerColorFollowsScore(Some(DefaultStatus));
  }
}
