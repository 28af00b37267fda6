/**
 * The two `datetime.strptime` formats the system parses and the `strftime`
 * formats it writes:
 *   - "%d/%m/%Y %H:%M", the transcript's timestamp (processing/db.py:88),
 *   - "%Y-%m-%d %H:%M:%S", the stored form (processing/db.py:91),
 *   - "%Y-%m-%d", the dashboard's dates in the URL (app.py:80, 168-169).
 * Fields follow CPython's `_strptime` directive patterns, then the calendar
 * check of `datetime` (proleptic Gregorian, years 1..9999).
 */
module Calendar {
  import opened Common
  import opened Strings

  datatype Date = Date(year: int, month: int, day: int)
  datatype DateTime = DateTime(year: int, month: int, day: int, hour: int, minute: int)

  function DateOf(t: DateTime): Date { Date(t.year, t.month, t.day) }

  predicate IsLeapYear(y: int) { y % 4 == 0 && (y % 100 != 0 || y % 400 == 0) }

  function DaysInMonth(year: int, month: int): (n: int)
    requires 1 <= month <= 12
    ensures 28 <= n <= 31
    ensures month == 2 ==> (n == 29 <==> IsLeapYear(year))
  {
    if month == 2 then (if IsLeapYear(year) then 29 else 28)
    else if month == 4 || month == 6 || month == 9 || month == 11 then 30
    else 31
  }

  /** What `datetime.date(year, month, day)` accepts. */
  predicate ValidDate(d: Date) {
    1 <= d.year <= 9999 && 1 <= d.month <= 12 && 1 <= d.day <= DaysInMonth(d.year, d.month)
  }

  /** What `datetime.datetime(year, month, day, hour, minute)` accepts. */
  predicate ValidDateTime(t: DateTime) {
    ValidDate(DateOf(t)) && 0 <= t.hour <= 23 && 0 <= t.minute <= 59
  }

  // ---------------------------------------------------------------------------
  // Fixed-width digit groups

  function TwoDigits(t: string): (v: int)
    requires |t| == 2 && AllDigits(t)
    ensures 0 <= v < 100
  {
    10 * DigitValue(t[0]) + DigitValue(t[1])
  }

  function FourDigits(t: string): (v: int)
    requires |t| == 4 && AllDigits(t)
    ensures 0 <= v < 10000
  {
    100 * TwoDigits(t[..2]) + TwoDigits(t[2..])
  }

  /** `%02d`. */
  function Pad2(n: int): (s: string)
    requires 0 <= n < 100
    ensures |s| == 2 && AllDigits(s)
  {
    [DigitChar(n / 10), DigitChar(n % 10)]
  }

  /** `%04d`, the zero-padded `%Y`. */
  function Pad4(n: int): (s: string)
    requires 0 <= n < 10000
    ensures |s| == 4 && AllDigits(s)
  {
    Pad2(n / 100) + Pad2(n % 100)
  }

  lemma Pad2RoundTrip(n: int)
    requires 0 <= n < 100
    ensures TwoDigits(Pad2(n)) == n
  {
  }

  lemma TwoDigitsRoundTrip(t: string)
    requires |t| == 2 && AllDigits(t)
    ensures Pad2(TwoDigits(t)) == t
  {
    var d0, d1 := DigitValue(t[0]), DigitValue(t[1]);
    assert (10 * d0 + d1) / 10 == d0 && (10 * d0 + d1) % 10 == d1;
    assert DigitChar(d0) == t[0] && DigitChar(d1) == t[1];
  }

  lemma Pad4RoundTrip(n: int)
    requires 0 <= n < 10000
    ensures FourDigits(Pad4(n)) == n
  {
    var s := Pad4(n);
    assert s[..2] == Pad2(n / 100) && s[2..] == Pad2(n % 100);
    Pad2RoundTrip(n / 100);
    Pad2RoundTrip(n % 100);
  }

  lemma FourDigitsRoundTrip(t: string)
    requires |t| == 4 && AllDigits(t)
    ensures Pad4(FourDigits(t)) == t
  {
    var hi, lo := TwoDigits(t[..2]), TwoDigits(t[2..]);
    assert (100 * hi + lo) / 100 == hi && (100 * hi + lo) % 100 == lo;
    TwoDigitsRoundTrip(t[..2]);
    TwoDigitsRoundTrip(t[2..]);
    assert t == t[..2] + t[2..];
  }

  // ---------------------------------------------------------------------------
  // strptime directives, as the patterns in CPython's _strptime

  /** `%d`: 3[01]|[12]\d|0[1-9]|[1-9]| [1-9] */
  function DayField(t: string): (r: Option<int>)
    ensures r.Some? ==> 1 <= r.value <= 31
  {
    if |t| == 1 && '1' <= t[0] <= '9' then Some(DigitValue(t[0]))
    else if |t| == 2 && t[0] == ' ' && '1' <= t[1] <= '9' then Some(DigitValue(t[1]))
    else if |t| == 2 && AllDigits(t) && 1 <= TwoDigits(t) <= 31 then Some(TwoDigits(t))
    else None
  }

  /** `%m`: 1[0-2]|0[1-9]|[1-9] */
  function MonthField(t: string): (r: Option<int>)
    ensures r.Some? ==> 1 <= r.value <= 12
  {
    if |t| == 1 && '1' <= t[0] <= '9' then Some(DigitValue(t[0]))
    else if |t| == 2 && AllDigits(t) && 1 <= TwoDigits(t) <= 12 then Some(TwoDigits(t))
    else None
  }

  /** `%Y`: \d\d\d\d */
  function YearField(t: string): (r: Option<int>)
    ensures r.Some? ==> 0 <= r.value <= 9999
  {
    if |t| == 4 && AllDigits(t) then Some(FourDigits(t)) else None
  }

  /** `%H`: 2[0-3]|[0-1]\d|\d */
  function HourField(t: string): (r: Option<int>)
    ensures r.Some? ==> 0 <= r.value <= 23
  {
    if |t| == 1 && IsDigit(t[0]) then Some(DigitValue(t[0]))
    else if |t| == 2 && AllDigits(t) && TwoDigits(t) <= 23 then Some(TwoDigits(t))
    else None
  }

  /** `%M`: [0-5]\d|\d */
  function MinuteField(t: string): (r: Option<int>)
    ensures r.Some? ==> 0 <= r.value <= 59
  {
    if |t| == 1 && IsDigit(t[0]) then Some(DigitValue(t[0]))
    else if |t| == 2 && AllDigits(t) && TwoDigits(t) <= 59 then Some(TwoDigits(t))
    else None
  }

  /**
   * `datetime.strptime(s, "%d/%m/%Y %H:%M")`; None stands for ValueError.
   * The blank in the format matches one or more whitespace characters.
   */
  function ParseTimestamp(s: string): (r: Option<DateTime>)
    ensures r.Some? ==> ValidDateTime(r.value)
  {
    match Find(s, "/")
    case None => None
    case Some(i) => ParseAfterDay(s[..i], s[i + 1..])
  }

  /** The rest of the input once the day's text has been cut at the first '/'. */
  function ParseAfterDay(dayText: string, rest: string): (r: Option<DateTime>)
    ensures r.Some? ==> ValidDateTime(r.value)
  {
    match Find(rest, "/")
    case None => None
    case Some(j) => ParseAfterMonth(dayText, rest[..j], rest[j + 1..])
  }

  /** Four year characters, at least one blank, then the clock cut at its first ':'. */
  function ParseAfterMonth(dayText: string, monthText: string, tail: string): (r: Option<DateTime>)
    ensures r.Some? ==> ValidDateTime(r.value)
  {
    if |tail| < 4 then None
    else
      var clock := StripLeft(tail[4..]);
      if |clock| == |tail| - 4 then None
      else
        match Find(clock, ":")
        case None => None
        case Some(k) => Assemble(dayText, monthText, tail[..4], clock[..k], clock[k + 1..])
  }

  /** Every field must match its directive and the date must exist. */
  function Assemble(dayText: string, monthText: string, yearText: string, hourText: string, minuteText: string): (r: Option<DateTime>)
    ensures r.Some? ==> ValidDateTime(r.value)
  {
    var day, month, year := DayField(dayText), MonthField(monthText), YearField(yearText);
    var hour, minute := HourField(hourText), MinuteField(minuteText);
    if day.None? || month.None? || year.None? || hour.None? || minute.None? then None
    else
      var t := DateTime(year.value, month.value, day.value, hour.value, minute.value);
      if ValidDateTime(t) then Some(t) else None
  }

  /** `strftime("%Y-%m-%d")`. */
  function FormatDate(d: Date): (s: string)
    requires 0 <= d.year < 10000 && 0 <= d.month < 100 && 0 <= d.day < 100
    ensures |s| == 10
  {
    Pad4(d.year) + ("-" + Pad2(d.month)) + ("-" + Pad2(d.day))
  }

  /** `strftime("%Y-%m-%d %H:%M:%S")` of a value parsed without seconds. */
  function FormatIso(t: DateTime): (s: string)
    requires ValidDateTime(t)
    ensures |s| == 19
  {
    FormatDate(DateOf(t)) + (" " + Pad2(t.hour)) + (":" + Pad2(t.minute)) + ":00"
  }

  /**
   * The timestamp conversion of store_message (processing/db.py:88-91):
   * None where strptime raises ValueError.
   */
  function ConvertTimestamp(raw: string): (r: Option<string>)
    ensures r.Some? <==> ParseTimestamp(raw).Some?
    ensures r.Some? ==> |r.value| == 19 && r.value[16..] == ":00"
  {
    match ParseTimestamp(raw)
    case None => None
    case Some(t) => Some(FormatIso(t))
  }

  /** `datetime.strptime(s, "%Y-%m-%d").date()`; None stands for ValueError. */
  function ParseDate(s: string): (r: Option<Date>)
    ensures r.Some? ==> ValidDate(r.value)
  {
    if |s| < 5 || s[4] != '-' then None
    else
      var rest := s[5..];
      match Find(rest, "-")
      case None => None
      case Some(j) =>
        var year, month, day := YearField(s[..4]), MonthField(rest[..j]), DayField(rest[j + 1..]);
        if year.None? || month.None? || day.None? then None
        else
          var d := Date(year.value, month.value, day.value);
          if ValidDate(d) then Some(d) else None
  }

  // ---------------------------------------------------------------------------
  // The transcript's fixed-width timestamps

  /** "DD/MM/YYYY HH:MM" with ASCII digits, as cut from a transcript marker. */
  predicate FixedWidth(s: string) {
    |s| == 16 && s[2] == '/' && s[5] == '/' && s[10] == ' ' && s[13] == ':' &&
    IsDigit(s[0]) && IsDigit(s[1]) && IsDigit(s[3]) && IsDigit(s[4]) &&
    IsDigit(s[6]) && IsDigit(s[7]) && IsDigit(s[8]) && IsDigit(s[9]) &&
    IsDigit(s[11]) && IsDigit(s[12]) && IsDigit(s[14]) && IsDigit(s[15])
  }

  lemma FixedWidthGroups(s: string)
    requires FixedWidth(s)
    ensures AllDigits(s[0..2]) && AllDigits(s[3..5]) && AllDigits(s[6..10])
    ensures AllDigits(s[11..13]) && AllDigits(s[14..16])
  {
  }

  /** The fields a fixed-width timestamp spells. */
  function FieldsOf(s: string): (t: DateTime)
    requires FixedWidth(s)
  {
    FixedWidthGroups(s);
    DateTime(FourDigits(s[6..10]), TwoDigits(s[3..5]), TwoDigits(s[0..2]),
             TwoDigits(s[11..13]), TwoDigits(s[14..16]))
  }

  /** Two digits and then `sep`: the first `sep` is at index 2. */
  lemma FindSeparatorAtTwo(s: string, sep: char)
    requires |s| >= 3 && IsDigit(s[0]) && IsDigit(s[1]) && s[2] == sep && !IsDigit(sep)
    ensures Find(s, [sep]) == Some(2)
  {
    assert OccursAt(s, [sep], 2);
    assert !OccursAt(s, [sep], 0) && !OccursAt(s, [sep], 1);
    FindIs(s, [sep], 2);
  }

  /** strptime reads a fixed-width timestamp as exactly its digit groups, calendar permitting. */
  lemma ParseFixedWidth(s: string)
    requires FixedWidth(s)
    ensures ParseTimestamp(s) == if ValidDateTime(FieldsOf(s)) then Some(FieldsOf(s)) else None
  {
    DayCutFixedWidth(s);
    MonthCutFixedWidth(s);
    ParseClockFixedWidth(s);
    AssembleFixedWidth(s);
  }

  /** The first '/' is the third character. */
  lemma DayCutFixedWidth(s: string)
    requires FixedWidth(s)
    ensures ParseTimestamp(s) == ParseAfterDay(s[..2], s[3..])
  {
    FindSeparatorAtTwo(s, '/');
  }

  /** So is the first '/' after it. */
  lemma MonthCutFixedWidth(s: string)
    requires FixedWidth(s)
    ensures ParseAfterDay(s[..2], s[3..]) == ParseAfterMonth(s[..2], s[3..5], s[6..])
  {
    var rest := s[3..];
    assert rest[..2] == s[3..5] && rest[3..] == s[6..];
    FindSeparatorAtTwo(rest, '/');
  }

  lemma ParseClockFixedWidth(s: string)
    requires FixedWidth(s)
    ensures ParseAfterMonth(s[..2], s[3..5], s[6..]) == Assemble(s[..2], s[3..5], s[6..10], s[11..13], s[14..16])
  {
    var tail := s[6..];
    ClockFixedWidth(s);
    AfterMonthCut(s[..2], s[3..5], tail, 2);
  }

  /** After the year, one blank, then the clock with its ':' third. */
  lemma ClockFixedWidth(s: string)
    requires FixedWidth(s)
    ensures var clock := StripLeft(s[6..][4..]);
      clock == s[11..] && |clock| != |s[6..]| - 4 && Find(clock, ":") == Some(2) &&
      s[6..][..4] == s[6..10] && clock[..2] == s[11..13] && clock[3..] == s[14..16]
  {
    BlankAfterYear(s);
    FindSeparatorAtTwo(s[11..], ':');
    ClockGroups(s);
  }

  lemma BlankAfterYear(s: string)
    requires FixedWidth(s)
    ensures StripLeft(s[6..][4..]) == s[11..] && s[6..][..4] == s[6..10]
  {
    var tail := s[6..];
    assert tail[..4] == s[6..10] && tail[4..] == s[10..];
    OneBlank(s[10..]);
    assert s[10..][1..] == s[11..];
  }

  lemma ClockGroups(s: string)
    requires |s| == 16
    ensures s[11..][..2] == s[11..13] && s[11..][3..] == s[14..16]
  {
  }

  /** ParseAfterMonth once the blank and the ':' have been found. */
  lemma AfterMonthCut(dayText: string, monthText: string, tail: string, k: nat)
    requires |tail| >= 4 && |StripLeft(tail[4..])| != |tail| - 4
    requires Find(StripLeft(tail[4..]), ":") == Some(k)
    ensures var clock := StripLeft(tail[4..]);
      ParseAfterMonth(dayText, monthText, tail) == Assemble(dayText, monthText, tail[..4], clock[..k], clock[k + 1..])
  {
  }

  /** One blank before a digit is all the format's blank takes. */
  lemma OneBlank(t: string)
    requires |t| >= 2 && t[0] == ' ' && IsDigit(t[1])
    ensures StripLeft(t) == t[1..]
  {
  }

  lemma AssembleFixedWidth(s: string)
    requires FixedWidth(s)
    ensures Assemble(s[..2], s[3..5], s[6..10], s[11..13], s[14..16]) ==
      if ValidDateTime(FieldsOf(s)) then Some(FieldsOf(s)) else None
  {
    FixedWidthGroups(s);
    assert s[..2] == s[0..2];
  }

  /** The stored form spells the same digit groups, year first. */
  lemma FormatIsoOfFields(s: string)
    requires FixedWidth(s) && ValidDateTime(FieldsOf(s))
    ensures FormatIso(FieldsOf(s)) == s[6..10] + "-" + s[3..5] + "-" + s[0..2] + " " + s[11..16] + ":00"
  {
    var t := FieldsOf(s);
    FixedWidthGroups(s);
    FourDigitsRoundTrip(s[6..10]);
    TwoDigitsRoundTrip(s[3..5]);
    TwoDigitsRoundTrip(s[0..2]);
    TwoDigitsRoundTrip(s[11..13]);
    TwoDigitsRoundTrip(s[14..16]);
    var date := s[6..10] + ("-" + s[3..5]) + ("-" + s[0..2]);
    assert FormatDate(DateOf(t)) == date;
    assert s[11..16] == s[11..13] + ":" + s[14..16];
    assert FormatIso(t) == date + (" " + s[11..13]) + (":" + s[14..16]) + ":00";
  }

  /**
   * A valid fixed-width "DD/MM/YYYY HH:MM" is stored as "YYYY-MM-DD HH:MM:00":
   * the same digits, rearranged, with seconds 00 (processing/db.py:88-91).
   */
  lemma ConvertRearranges(s: string)
    requires FixedWidth(s)
    ensures ConvertTimestamp(s).Some? <==> ValidDateTime(FieldsOf(s))
    ensures ConvertTimestamp(s).Some? ==>
      ConvertTimestamp(s).value == s[6..10] + "-" + s[3..5] + "-" + s[0..2] + " " + s[11..16] + ":00"
  {
    ParseFixedWidth(s);
    if ValidDateTime(FieldsOf(s)) {
      FormatIsoOfFields(s);
    }
  }

  /** 31 April does not exist: strptime refuses the day. */
  lemma ConvertRefusesApril31()
    ensures ConvertTimestamp("31/04/2023 10:00").None?
  {
    RefusedExample("31/04/2023 10:00");
  }

  /** 29 February exists only in leap years. */
  lemma ConvertRefusesFeb29OfCommonYear()
    ensures ConvertTimestamp("29/02/2023 10:00").None?
  {
    RefusedExample("29/02/2023 10:00");
  }

  /** Hour 24 matches no %H alternative. */
  lemma ConvertRefusesHour24()
    ensures ConvertTimestamp("01/01/2024 24:00").None?
  {
    RefusedExample("01/01/2024 24:00");
  }

  /** 29 February of a leap year is kept and rearranged. */
  lemma ConvertLeapDay(s: string)
    requires s == "29/02/2024 23:59"
    ensures ConvertTimestamp(s) == Some("2024-02-29 23:59:00")
  {
    LeapDayIsValid(s);
    ConvertRearranges(s);
    assert ConvertTimestamp(s).Some?;
    assert ConvertTimestamp(s).value == s[6..10] + "-" + s[3..5] + "-" + s[0..2] + " " + s[11..16] + ":00";
    LeapDayGroups(s);
  }

  lemma LeapDayIsValid(s: string)
    requires s == "29/02/2024 23:59"
    ensures FixedWidth(s) && ValidDateTime(FieldsOf(s))
  {
    assert |s| == 16;
    assert s[0] == '2' && s[1] == '9' && s[2] == '/' && s[3] == '0' && s[4] == '2' && s[5] == '/';
    assert s[6] == '2' && s[7] == '0' && s[8] == '2' && s[9] == '4' && s[10] == ' ';
    assert s[11] == '2' && s[12] == '3' && s[13] == ':' && s[14] == '5' && s[15] == '9';
    assert FixedWidth(s);
    FieldsOfChars(s);
  }

  /** The fields of a fixed-width timestamp, digit by digit. */
  lemma FieldsOfChars(s: string)
    requires FixedWidth(s)
    ensures FieldsOf(s) == DateTime(
      1000 * DigitValue(s[6]) + 100 * DigitValue(s[7]) + 10 * DigitValue(s[8]) + DigitValue(s[9]),
      10 * DigitValue(s[3]) + DigitValue(s[4]), 10 * DigitValue(s[0]) + DigitValue(s[1]),
      10 * DigitValue(s[11]) + DigitValue(s[12]), 10 * DigitValue(s[14]) + DigitValue(s[15]))
  {
    FixedWidthGroups(s);
    var year := s[6..10];
    assert year[..2][0] == s[6] && year[..2][1] == s[7] && year[2..][0] == s[8] && year[2..][1] == s[9];
  }

  lemma LeapDayGroups(s: string)
    requires s == "29/02/2024 23:59"
    ensures s[6..10] + "-" + s[3..5] + "-" + s[0..2] + " " + s[11..16] + ":00" == "2024-02-29 23:59:00"
  {
    assert s[6..10] == "2024" && s[3..5] == "02" && s[0..2] == "29" && s[11..16] == "23:59";
  }

  lemma RefusedExample(s: string)
    requires FixedWidth(s) && !ValidDateTime(FieldsOf(s))
    ensures ConvertTimestamp(s).None?
  {
    ParseFixedWidth(s);
  }

  // ---------------------------------------------------------------------------
  // Text order of the stored form is chronological order

  predicate DateBefore(a: Date, b: Date) {
    a.year < b.year || (a.year == b.year &&
      (a.month < b.month || (a.month == b.month && a.day < b.day)))
  }

  predicate Before(a: DateTime, b: DateTime) {
    DateBefore(DateOf(a), DateOf(b)) || (DateOf(a) == DateOf(b) &&
      (a.hour < b.hour || (a.hour == b.hour && a.minute < b.minute)))
  }

  lemma DigitCharOrder(x: nat, y: nat)
    requires x < 10 && y < 10
    ensures DigitChar(x) < DigitChar(y) <==> x < y
    ensures DigitChar(x) == DigitChar(y) <==> x == y
  {
  }

  lemma Pad2Order(a: int, b: int)
    requires 0 <= a < 100 && 0 <= b < 100
    ensures LexLess(Pad2(a), Pad2(b)) <==> a < b
    ensures Pad2(a) == Pad2(b) <==> a == b
  {
    DigitCharOrder(a / 10, b / 10);
    DigitCharOrder(a % 10, b % 10);
    var pa, pb := Pad2(a), Pad2(b);
    assert pa[1..] == [pa[1]] && pb[1..] == [pb[1]];
    assert LexLess(pa[1..], pb[1..]) <==> pa[1] < pb[1];
    Pad2RoundTrip(a);
    Pad2RoundTrip(b);
  }

  lemma Pad4Order(a: int, b: int)
    requires 0 <= a < 10000 && 0 <= b < 10000
    ensures LexLess(Pad4(a), Pad4(b)) <==> a < b
    ensures Pad4(a) == Pad4(b) <==> a == b
  {
    Pad2Order(a / 100, b / 100);
    Pad2Order(a % 100, b % 100);
    LexLessConcat(Pad2(a / 100), Pad2(a % 100), Pad2(b / 100), Pad2(b % 100));
    ConcatEq(Pad2(a / 100), Pad2(a % 100), Pad2(b / 100), Pad2(b % 100));
  }

  /** A one-character separator in front of equal-width parts does not change their order. */
  lemma SeparatedOrder(sep: string, x: string, y: string)
    requires |sep| == 1
    ensures LexLess(sep + x, sep + y) <==> LexLess(x, y)
    ensures sep + x == sep + y <==> x == y
  {
    LexLessConcat(sep, x, sep, y);
    ConcatEq(sep, x, sep, y);
    assert !LexLess(sep, sep);
  }

  /** Combining a field with the fields that follow it. */
  lemma StepOrder(x1: string, y1: string, x2: string, y2: string)
    requires |x1| == |x2|
    ensures LexLess(x1 + y1, x2 + y2) <==> LexLess(x1, x2) || (x1 == x2 && LexLess(y1, y2))
    ensures x1 + y1 == x2 + y2 <==> x1 == x2 && y1 == y2
  {
    LexLessConcat(x1, y1, x2, y2);
    ConcatEq(x1, y1, x2, y2);
  }

  lemma FormatDateOrder(a: Date, b: Date)
    requires ValidDate(a) && ValidDate(b)
    ensures LexLess(FormatDate(a), FormatDate(b)) <==> DateBefore(a, b)
    ensures FormatDate(a) == FormatDate(b) <==> a == b
  {
    Pad4Order(a.year, b.year);
    Pad2Order(a.month, b.month);
    Pad2Order(a.day, b.day);
    SeparatedOrder("-", Pad2(a.month), Pad2(b.month));
    SeparatedOrder("-", Pad2(a.day), Pad2(b.day));
    StepOrder(Pad4(a.year), "-" + Pad2(a.month), Pad4(b.year), "-" + Pad2(b.month));
    StepOrder(Pad4(a.year) + ("-" + Pad2(a.month)), "-" + Pad2(a.day),
              Pad4(b.year) + ("-" + Pad2(b.month)), "-" + Pad2(b.day));
  }

  /**
   * Comparing stored timestamps as text (SQLite's ORDER BY on the TEXT
   * column, app.py:35) is comparing them in time.
   */
  lemma IsoOrderIsChronological(a: DateTime, b: DateTime)
    requires ValidDateTime(a) && ValidDateTime(b)
    ensures LexLess(FormatIso(a), FormatIso(b)) <==> Before(a, b)
    ensures FormatIso(a) == FormatIso(b) <==> a == b
  {
    var da, db := FormatDate(DateOf(a)), FormatDate(DateOf(b));
    var ha, hb := " " + Pad2(a.hour), " " + Pad2(b.hour);
    var ma, mb := ":" + Pad2(a.minute), ":" + Pad2(b.minute);
    FormatDateOrder(DateOf(a), DateOf(b));
    Pad2Order(a.hour, b.hour);
    Pad2Order(a.minute, b.minute);
    SeparatedOrder(" ", Pad2(a.hour), Pad2(b.hour));
    SeparatedOrder(":", Pad2(a.minute), Pad2(b.minute));
    StepOrder(da, ha, db, hb);
    StepOrder(da + ha, ma, db + hb, mb);
    StepOrder(da + ha + ma, ":00", db + hb + mb, ":00");
    assert !LexLess(":00", ":00");
  }

  /** Reading back a written date gives the same date (app.py:80 after app.py:168). */
  lemma DateRoundTrip(d: Date)
    requires ValidDate(d)
    ensures ParseDate(FormatDate(d)) == Some(d)
  {
    var s := FormatDate(d);
    assert s[..4] == Pad4(d.year) && s[4] == '-';
    var rest := s[5..];
    assert rest == Pad2(d.month) + ("-" + Pad2(d.day));
    assert OccursAt(rest, "-", 2);
    assert !OccursAt(rest, "-", 0) && !OccursAt(rest, "-", 1);
    FindIs(rest, "-", 2);
    assert rest[..2] == Pad2(d.month) && rest[3..] == Pad2(d.day);
    Pad4RoundTrip(d.year);
    Pad2RoundTrip(d.month);
    Pad2RoundTrip(d.day);
  }
}
