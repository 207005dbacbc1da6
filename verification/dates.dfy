/** The two date helpers of the scraper: `format_date`, which reads a
    `DD.MM.YYYY` string with `strptime("%d.%m.%Y")` and writes it back with
    `strftime("%Y-%m-%d")`, and `parse_dates`, which splits a range at `" - "`
    and formats both halves. Neither ever raises: every failure becomes the
    sentinel `"Unknown"`. */
module Dates {
  import opened Wrappers
  import opened Text

  /** The placeholder the scraper stores for a field it could not resolve. */
  const Unknown: string := "Unknown"

  /** A validity window: the `(valid_from, valid_to)` pair of one leaflet. */
  datatype Period = Period(validFrom: string, validTo: string)

  /** A `DD.MM.YYYY`-shaped token (two digits, dot, two digits, dot, four
      digits) starts at index `i` of `s`. */
  predicate DateAt(s: string, i: int) {
    && 0 <= i && i + 10 <= |s|
    && IsDigit(s[i]) && IsDigit(s[i + 1]) && s[i + 2] == '.'
    && IsDigit(s[i + 3]) && IsDigit(s[i + 4]) && s[i + 5] == '.'
    && IsDigit(s[i + 6]) && IsDigit(s[i + 7]) && IsDigit(s[i + 8]) && IsDigit(s[i + 9])
  }

  /** The whole of `s` is one `DD.MM.YYYY` token. */
  predicate IsDottedDate(s: string) {
    |s| == 10 && DateAt(s, 0)
  }

  // ---------------------------------------------------------------------------
  // The Gregorian calendar

  datatype CalendarDate = CalendarDate(year: nat, month: nat, day: nat)

  predicate IsLeapYear(year: nat) {
    year % 4 == 0 && (year % 100 != 0 || year % 400 == 0)
  }

  function DaysInMonth(year: nat, month: nat): (n: nat)
    requires 1 <= month <= 12
    ensures 28 <= n <= 31
  {
    if month == 2 then (if IsLeapYear(year) then 29 else 28)
    else if month == 4 || month == 6 || month == 9 || month == 11 then 30
    else 31
  }

  /** A date Python's `datetime` accepts: year 1 to 9999, a real month, and a
      day that exists in that month of that year. */
  predicate IsRealDate(d: CalendarDate) {
    && 1 <= d.year <= 9999
    && 1 <= d.month <= 12
    && 1 <= d.day <= DaysInMonth(d.year, d.month)
  }

  // ---------------------------------------------------------------------------
  // strptime with the format "%d.%m.%Y"

  predicate IsNonZeroDigit(c: char) {
    '1' <= c <= '9'
  }

  /** The text `%d` accepts: `3[01]`, `[12]\d`, `0[1-9]`, `[1-9]` or a blank
      followed by `[1-9]`. */
  predicate IsDayField(f: string) {
    || (|f| == 1 && IsNonZeroDigit(f[0]))
    || (|f| == 2 && f[0] == '3' && (f[1] == '0' || f[1] == '1'))
    || (|f| == 2 && (f[0] == '1' || f[0] == '2') && IsDigit(f[1]))
    || (|f| == 2 && f[0] == '0' && IsNonZeroDigit(f[1]))
    || (|f| == 2 && f[0] == ' ' && IsNonZeroDigit(f[1]))
  }

  /** The text `%m` accepts: `1[0-2]`, `0[1-9]` or `[1-9]`. */
  predicate IsMonthField(f: string) {
    || (|f| == 1 && IsNonZeroDigit(f[0]))
    || (|f| == 2 && f[0] == '1' && '0' <= f[1] <= '2')
    || (|f| == 2 && f[0] == '0' && IsNonZeroDigit(f[1]))
  }

  /** The text `%Y` accepts: exactly four digits. */
  predicate IsYearField(f: string) {
    |f| == 4 && AllDigits(f)
  }

  /** A field without the blank that `%d` allows in front of a single digit. */
  function FieldDigits(f: string): string {
    if |f| > 0 && f[0] == ' ' then f[1..] else f
  }

  lemma FieldShape(f: string)
    requires IsDayField(f) || IsMonthField(f) || IsYearField(f)
    ensures AllDigits(FieldDigits(f))
    ensures forall k :: 0 <= k < |f| ==> f[k] != '.'
  {
  }

  /** The integer value of a field. */
  function FieldValue(f: string): nat
    requires IsDayField(f) || IsMonthField(f) || IsYearField(f)
  {
    FieldShape(f);
    DecimalValue(FieldDigits(f))
  }

  datatype DottedFields = DottedFields(day: string, month: string, year: string)

  /** Each of the three fields is text its directive accepts. */
  predicate WellFormed(f: DottedFields) {
    IsDayField(f.day) && IsMonthField(f.month) && IsYearField(f.year)
  }

  function JoinFields(f: DottedFields): string {
    f.day + "." + f.month + "." + f.year
  }

  /** `s` cut around its first dot. */
  function CutAtFirstDot(s: string): (r: Option<(string, string)>)
    ensures r.Some? ==> s == r.value.0 + "." + r.value.1
    ensures r.None? ==> forall k :: 0 <= k < |s| ==> s[k] != '.'
  {
    match Find(s, ".", 0)
    case None =>
      assert forall k :: 0 <= k < |s| ==> !OccursAt(s, ".", k) && s[k..k + 1] == [s[k]];
      None
    case Some(i) =>
      assert s[i..i + 1] == ".";
      Some((s[..i], s[i + 1..]))
  }

  /** The first dot after a dot-free prefix is the one that follows it. */
  lemma CutAfterDotFree(a: string, tail: string)
    requires forall k :: 0 <= k < |a| ==> a[k] != '.'
    ensures CutAtFirstDot(a + "." + tail) == Some((a, tail))
  {
    var s := a + "." + tail;
    assert OccursAt(s, ".", |a|) by {
      assert s[|a|..|a| + 1] == ".";
    }
    forall j | 0 <= j < |a| ensures !OccursAt(s, ".", j) {
      assert s[j..j + 1] == [a[j]];
    }
    assert Find(s, ".", 0) == Some(|a|);
    assert s[..|a|] == a && s[|a| + 1..] == tail;
  }

  /** The regular expression strptime builds for `"%d.%m.%Y"`, matched against
      the whole string. The fields hold no dot, so the cut points are the first
      two dots of `s`. */
  function ParseDotted(s: string): (r: Option<DottedFields>)
    ensures r.Some? ==> WellFormed(r.value) && JoinFields(r.value) == s
  {
    match CutAtFirstDot(s)
    case None => None
    case Some((day, rest)) =>
      match CutAtFirstDot(rest)
      case None => None
      case Some((month, year)) =>
        var f := DottedFields(day, month, year);
        JoinAtCuts(s, rest, f);
        if WellFormed(f) then Some(f) else None
  }

  lemma JoinAtCuts(s: string, rest: string, f: DottedFields)
    requires s == f.day + "." + rest && rest == f.month + "." + f.year
    ensures JoinFields(f) == s
  {
  }

  /** Every well-formed field triple is read back as itself: together with
      `ParseDotted`'s contract, a string is accepted exactly when it is three
      well-formed fields joined by dots. */
  lemma ParseDottedComplete(f: DottedFields)
    requires WellFormed(f)
    ensures ParseDotted(JoinFields(f)) == Some(f)
  {
    FieldShape(f.day);
    FieldShape(f.month);
    assert JoinFields(f) == f.day + "." + (f.month + "." + f.year);
    CutAfterDotFree(f.day, f.month + "." + f.year);
    CutAfterDotFree(f.month, f.year);
  }

  // ---------------------------------------------------------------------------
  // strftime with the format "%Y-%m-%d"

  /** `YYYY-MM-DD`: four digits, hyphen, two digits, hyphen, two digits. */
  predicate IsIsoShaped(r: string) {
    && |r| == 10 && r[4] == '-' && r[7] == '-'
    && AllDigits(r[..4]) && AllDigits(r[5..7]) && AllDigits(r[8..])
  }

  function IsoText(d: CalendarDate): (r: string)
    ensures IsIsoShaped(r)
  {
    var r := Pad(d.year, 4) + "-" + Pad(d.month, 2) + "-" + Pad(d.day, 2);
    assert r[..4] == Pad(d.year, 4) && r[5..7] == Pad(d.month, 2) && r[8..] == Pad(d.day, 2);
    r
  }

  /** Reads a `YYYY-MM-DD` string back into a calendar date. */
  function DecodeIso(r: string): CalendarDate
    requires IsIsoShaped(r)
  {
    CalendarDate(DecimalValue(r[..4]), DecimalValue(r[5..7]), DecimalValue(r[8..]))
  }

  /** `IsoText` and `DecodeIso` are inverse on every date whose fields fit. */
  lemma DecodeIsoText(d: CalendarDate)
    requires d.year < 10000 && d.month < 100 && d.day < 100
    ensures DecodeIso(IsoText(d)) == d
  {
    var r := IsoText(d);
    assert r[..4] == Pad(d.year, 4) && r[5..7] == Pad(d.month, 2) && r[8..] == Pad(d.day, 2);
    assert Pow10(4) == 10000 && Pow10(2) == 100;
    DecimalValuePad(d.year, 4);
    DecimalValuePad(d.month, 2);
    DecimalValuePad(d.day, 2);
  }

  function FieldsDate(f: DottedFields): CalendarDate
    requires WellFormed(f)
  {
    CalendarDate(FieldValue(f.year), FieldValue(f.month), FieldValue(f.day))
  }

  /** `format_date`: strptime, then strftime; a ValueError (text the format
      does not match, or a date the calendar does not have) gives "Unknown". */
  function FormatDate(s: string): (r: string)
    ensures r == Unknown || IsIsoShaped(r)
    ensures r != Unknown ==> IsRealDate(DecodeIso(r))
  {
    match ParseDotted(s)
    case None => Unknown
    case Some(f) =>
      var d := FieldsDate(f);
      if IsRealDate(d) then
        assert d.year < 10000 && d.month < 100 && d.day < 100;
        DecodeIsoText(d);
        IsoText(d)
      else Unknown
  }

  /** "Unknown" is not an ISO date, so the two outcomes never meet. */
  lemma UnknownNotIso()
    ensures !IsIsoShaped(Unknown)
  {
  }

  /** The digits of a strict `DD.MM.YYYY` token are read as that token's
      three two-, two- and four-digit numbers. */
  function DottedDate(s: string): CalendarDate
    requires IsDottedDate(s)
  {
    CalendarDate(DecimalValue(s[6..]), DecimalValue(s[3..5]), DecimalValue(s[..2]))
  }

  /** On a strict `DD.MM.YYYY` token the cuts fall at indexes 2 and 5, so
      only the day and month alternatives decide acceptance. */
  lemma ParseDottedStrict(s: string)
    requires IsDottedDate(s)
    ensures ParseDotted(s) == (if IsDayField(s[..2]) && IsMonthField(s[3..5])
                               then Some(DottedFields(s[..2], s[3..5], s[6..])) else None)
  {
    DottedParts(s);
    assert s == s[..2] + "." + (s[3..5] + "." + s[6..]);
    CutAfterDotFree(s[..2], s[3..5] + "." + s[6..]);
    CutAfterDotFree(s[3..5], s[6..]);
  }

  /** The digits of a `DD.MM.YYYY` token in `YYYY-MM-DD` order. */
  function Rearranged(s: string): string
    requires |s| == 10
  {
    s[6..] + "-" + s[3..5] + "-" + s[..2]
  }

  lemma DottedParts(s: string)
    requires IsDottedDate(s)
    ensures AllDigits(s[..2]) && AllDigits(s[3..5]) && AllDigits(s[6..])
  {
    assert forall k :: 0 <= k < 2 ==> s[..2][k] == s[k] && s[3..5][k] == s[k + 3];
    assert forall k :: 0 <= k < 4 ==> s[6..][k] == s[k + 6];
  }

  /** Writing the numbers of a strict token back in ISO order reuses its digits. */
  lemma IsoTextOfDotted(s: string)
    requires IsDottedDate(s)
    ensures IsoText(DottedDate(s)) == Rearranged(s)
  {
    DottedParts(s);
    PadDecimalValue(s[6..]);
    PadDecimalValue(s[3..5]);
    PadDecimalValue(s[..2]);
  }

  /** `format_date` applied to text whose parse is known. */
  lemma FormatDateOfFields(s: string, f: DottedFields)
    requires ParseDotted(s) == Some(f)
    ensures FormatDate(s) == (if IsRealDate(FieldsDate(f)) then IsoText(FieldsDate(f)) else Unknown)
  {
  }

  /** A strict token naming a real date has a day and month strptime accepts. */
  lemma RealDottedIsWellFormed(s: string)
    requires IsDottedDate(s) && IsRealDate(DottedDate(s))
    ensures IsDayField(s[..2]) && IsMonthField(s[3..5])
  {
    DottedParts(s);
    if !(IsDayField(s[..2]) && IsMonthField(s[3..5])) {
      DayMonthOutOfRange(s[..2], s[3..5]);
    }
  }

  lemma DottedFieldsDate(s: string)
    requires IsDottedDate(s) && IsDayField(s[..2]) && IsMonthField(s[3..5])
    ensures WellFormed(DottedFields(s[..2], s[3..5], s[6..]))
    ensures FieldsDate(DottedFields(s[..2], s[3..5], s[6..])) == DottedDate(s)
  {
    DottedParts(s);
  }

  /** A strict `DD.MM.YYYY` token that names a real Gregorian date is
      rewritten as `YYYY-MM-DD` from the very same digits. */
  lemma FormatDateAcceptsRealDate(s: string)
    requires IsDottedDate(s) && IsRealDate(DottedDate(s))
    ensures FormatDate(s) == Rearranged(s)
  {
    RealDottedIsWellFormed(s);
    ParseDottedStrict(s);
    DottedFieldsDate(s);
    FormatDateOfFields(s, DottedFields(s[..2], s[3..5], s[6..]));
    IsoTextOfDotted(s);
  }

  /** A strict `DD.MM.YYYY` token that names no real date (day 00 or 32,
      month 13, the 29th of February outside a leap year, year 0000) gives
      "Unknown". */
  lemma FormatDateRejectsUnrealDate(s: string)
    requires IsDottedDate(s) && !IsRealDate(DottedDate(s))
    ensures FormatDate(s) == Unknown
  {
    ParseDottedStrict(s);
    var f := DottedFields(s[..2], s[3..5], s[6..]);
    if IsDayField(f.day) && IsMonthField(f.month) {
      DottedFieldsDate(s);
      FormatDateOfFields(s, f);
    }
  }

  /** On a strict `DD.MM.YYYY` token, `format_date` succeeds exactly when the
      token names a real Gregorian date. */
  lemma FormatDateDotted(s: string)
    requires IsDottedDate(s)
    ensures FormatDate(s) != Unknown <==> IsRealDate(DottedDate(s))
    ensures IsRealDate(DottedDate(s)) ==> FormatDate(s) == Rearranged(s)
  {
    if IsRealDate(DottedDate(s)) {
      FormatDateAcceptsRealDate(s);
      assert FormatDate(s)[4] == '-';
    } else {
      FormatDateRejectsUnrealDate(s);
    }
  }

  lemma DayMonthOutOfRange(day: string, month: string)
    requires |day| == 2 && |month| == 2 && AllDigits(day) && AllDigits(month)
    requires !(IsDayField(day) && IsMonthField(month))
    ensures !(1 <= DecimalValue(day) <= 31 && 1 <= DecimalValue(month) <= 12)
  {
    TwoDigitValue(day);
    TwoDigitValue(month);
  }

  lemma TwoDigitValue(f: string)
    requires |f| == 2 && AllDigits(f)
    ensures DecimalValue(f) == DigitValue(f[0]) * 10 + DigitValue(f[1])
  {
    var init := f[..1];
    assert init[..0] == "" && init[0] == f[0];
    assert DecimalValue(init) == DigitValue(f[0]);
  }

  // ---------------------------------------------------------------------------
  // Examples of format_date

  /** The three numbers of a strict `DD.MM.YYYY` token, digit by digit. */
  lemma DottedDateDigits(s: string)
    requires IsDottedDate(s)
    ensures DottedDate(s).day == DigitValue(s[0]) * 10 + DigitValue(s[1])
    ensures DottedDate(s).month == DigitValue(s[3]) * 10 + DigitValue(s[4])
    ensures DottedDate(s).year
         == ((DigitValue(s[6]) * 10 + DigitValue(s[7])) * 10 + DigitValue(s[8])) * 10 + DigitValue(s[9])
  {
    TwoDigitValue(s[..2]);
    TwoDigitValue(s[3..5]);
    var y := s[6..];
    var y3 := y[..3];
    assert y3[..2] == s[6..8] && y3[2] == s[8] && y[3] == s[9];
    TwoDigitValue(s[6..8]);
    assert DecimalValue(y3) == DecimalValue(s[6..8]) * 10 + DigitValue(s[8]);
  }

  /** The 29th of February is accepted exactly in Gregorian leap years:
      divisible by 4, and by 400 when divisible by 100. */
  lemma FormatDateLeapDay(s: string)
    requires IsDottedDate(s) && s[..6] == "29.02."
    ensures FormatDate(s) != Unknown <==> DottedDate(s).year >= 1 && IsLeapYear(DottedDate(s).year)
  {
    DottedDateDigits(s);
    assert s[0] == '2' && s[1] == '9' && s[3] == '0' && s[4] == '2' by {
      assert s[..6][0] == s[0] && s[..6][1] == s[1] && s[..6][3] == s[3] && s[..6][4] == s[4];
    }
    FormatDateDotted(s);
  }

  /** strptime reads any three well-formed fields, including one-digit and
      blank-padded days and months; strftime then writes the date they name. */
  lemma FormatDateWellFormed(f: DottedFields)
    requires WellFormed(f)
    ensures FormatDate(JoinFields(f)) == (if IsRealDate(FieldsDate(f)) then IsoText(FieldsDate(f)) else Unknown)
  {
    ParseDottedComplete(f);
    FormatDateOfFields(JoinFields(f), f);
  }

  /** Over all strings: the text is formatted exactly when it is three
      well-formed fields joined by dots that name a real date, and the result
      is then that date in ISO form. Text with one dot, such as `01.012025`,
      is therefore "Unknown". */
  lemma FormatDateAccepted(s: string)
    ensures FormatDate(s) != Unknown <==>
      exists f :: WellFormed(f) && JoinFields(f) == s && IsRealDate(FieldsDate(f))
    ensures FormatDate(s) != Unknown ==>
      exists f :: WellFormed(f) && JoinFields(f) == s && FormatDate(s) == IsoText(FieldsDate(f))
  {
    if FormatDate(s) != Unknown {
      var f := ParseDotted(s).value;
      assert WellFormed(f) && JoinFields(f) == s && IsRealDate(FieldsDate(f));
    }
    if exists f :: WellFormed(f) && JoinFields(f) == s && IsRealDate(FieldsDate(f)) {
      var f :| WellFormed(f) && JoinFields(f) == s && IsRealDate(FieldsDate(f));
      FormatDateWellFormed(f);
      UnknownNotIso();
    }
  }

  lemma SingleDigitFields(day: char, month: char, year: string)
    requires IsNonZeroDigit(day) && IsNonZeroDigit(month) && IsYearField(year)
    requires DecimalValue(year) >= 1
    ensures WellFormed(DottedFields([day], [month], year))
    ensures FieldsDate(DottedFields([day], [month], year))
         == CalendarDate(DecimalValue(year), DigitValue(month), DigitValue(day))
    ensures IsRealDate(CalendarDate(DecimalValue(year), DigitValue(month), DigitValue(day)))
  {
    OneDigitValue(day);
    OneDigitValue(month);
    DecimalValueBound(year);
    assert Pow10(4) == 10000;
  }

  lemma IsoTextSingleDigits(day: char, month: char, year: string)
    requires IsDigit(day) && IsDigit(month) && IsYearField(year)
    ensures IsoText(CalendarDate(DecimalValue(year), DigitValue(month), DigitValue(day)))
         == year + "-0" + [month] + "-0" + [day]
  {
    PadDecimalValue(year);
    PadOneDigit(month);
    PadOneDigit(day);
  }

  /** A one-digit day and month (`1.2.2025`) are accepted in any year from 1
      on and come back zero-padded (`2025-02-01`). */
  lemma FormatDateSingleDigits(day: char, month: char, year: string)
    requires IsNonZeroDigit(day) && IsNonZeroDigit(month) && IsYearField(year)
    requires DecimalValue(year) >= 1
    ensures FormatDate([day] + "." + [month] + "." + year) == year + "-0" + [month] + "-0" + [day]
  {
    var f := DottedFields([day], [month], year);
    SingleDigitFields(day, month, year);
    FormatDateWellFormed(f);
    IsoTextSingleDigits(day, month, year);
  }

  /** Text without a dot never reaches the calendar check: the format needs
      two dots. This covers the empty date text of a tile without a date
      node. */
  lemma FormatDateRejectsDotless(s: string)
    requires forall k :: 0 <= k < |s| ==> s[k] != '.'
    ensures FormatDate(s) == Unknown
  {
    LacksFirstChar(s, ".");
  }

  /** Dot-free fields are cut back apart exactly, so three fields joined by
      dots are read back as themselves when well formed and rejected when
      not. */
  lemma ParseDottedFields(f: DottedFields)
    requires forall k :: 0 <= k < |f.day| ==> f.day[k] != '.'
    requires forall k :: 0 <= k < |f.month| ==> f.month[k] != '.'
    ensures ParseDotted(JoinFields(f)) == if WellFormed(f) then Some(f) else None
  {
    assert JoinFields(f) == f.day + "." + (f.month + "." + f.year);
    CutAfterDotFree(f.day, f.month + "." + f.year);
    CutAfterDotFree(f.month, f.year);
  }

  /** A field the format does not accept, such as the year `25` or the day
      `x1`, makes the text "Unknown". */
  lemma FormatDateRejectsMalformed(f: DottedFields)
    requires forall k :: 0 <= k < |f.day| ==> f.day[k] != '.'
    requires forall k :: 0 <= k < |f.month| ==> f.month[k] != '.'
    requires !WellFormed(f)
    ensures FormatDate(JoinFields(f)) == Unknown
  {
    ParseDottedFields(f);
  }

  // ---------------------------------------------------------------------------
  // parse_dates

  const RangeSeparator: string := " - "

  /** `parse_dates`: split at `" - "`; exactly two parts are formatted one by
      one, any other count gives two "Unknown"s. */
  function ParseDates(text: string): (p: Period)
    ensures p.validFrom == Unknown || IsIsoShaped(p.validFrom)
    ensures p.validTo == Unknown || IsIsoShaped(p.validTo)
    ensures !Contains(text, RangeSeparator) ==> p == Period(Unknown, Unknown)
  {
    var parts := Split(text, RangeSeparator);
    if |parts| == 2 then Period(FormatDate(parts[0]), FormatDate(parts[1]))
    else Period(Unknown, Unknown)
  }

  /** With exactly one separator, each side is formatted on its own. No
      separator may start in `a` (one would lie in `a` followed by the
      separator's first two characters) or lie in `b`. */
  lemma ParseDatesOneSeparator(a: string, b: string)
    requires !Contains(a + " -", RangeSeparator) && !Contains(b, RangeSeparator)
    ensures ParseDates(a + RangeSeparator + b) == Period(FormatDate(a), FormatDate(b))
  {
    var s := a + RangeSeparator + b;
    var n := |a| + 2;
    assert s[..n] == a + " -";
    forall j | 0 <= j < |a| ensures !OccursAt(s, RangeSeparator, j) {
      assert j <= |s[..n]| && !OccursAt(s[..n], RangeSeparator, j);
      if OccursAt(s, RangeSeparator, j) {
        OccursInPrefixOf(s, RangeSeparator, n, j);
      }
    }
    SplitAround(a, RangeSeparator, b);
  }

  /** Two separators or more give three parts or more, hence no dates. */
  lemma ParseDatesTwoSeparators(text: string, i: nat, j: nat)
    requires OccursAt(text, RangeSeparator, i) && OccursAt(text, RangeSeparator, j)
    requires i + |RangeSeparator| <= j
    ensures ParseDates(text) == Period(Unknown, Unknown)
  {
    SplitTwoOccurrences(text, RangeSeparator, i, j);
  }

  /** The two sides are independent: a real start date survives an end date
      the calendar does not have (`01.03.2025 - 32.03.2025`). */
  lemma ParseDatesIndependentSides(a: string, b: string)
    requires IsDottedDate(a) && IsDottedDate(b)
    requires IsRealDate(DottedDate(a)) && !IsRealDate(DottedDate(b))
    ensures ParseDates(a + RangeSeparator + b) == Period(Rearranged(a), Unknown)
  {
    LacksFirstChar(b, RangeSeparator);
    DottedNoSeparator(a);
    ParseDatesOneSeparator(a, b);
    FormatDateAcceptsRealDate(a);
    FormatDateRejectsUnrealDate(b);
  }

  /** A `DD.MM.YYYY` token followed by `" -"` holds no separator: its only
      blank is the last but one character. */
  lemma DottedNoSeparator(a: string)
    requires IsDottedDate(a)
    ensures !Contains(a + " -", RangeSeparator)
  {
    var s := a + " -";
    forall j | 0 <= j <= |s| ensures !OccursAt(s, RangeSeparator, j) {
      if j + 3 <= |s| {
        assert s[j..j + 3][0] == s[j];
        if j < 10 {
          assert s[j] == a[j];
        }
      }
    }
  }
}
