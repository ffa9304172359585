/** Reading timestamps back (internal/store/store.go): `ParseTime` inverts `FmtTime`. */
module TimeParse {
  import opened Text
  import opened Calendar
  import opened TimeText

  datatype Field = Field(value: nat, rest: string)

  /** A number of exactly `width` digits followed by the separator, at the start of the text. */
  function ReadField(text: string, width: nat, separator: char): Option<Field> {
    if |text| > width && AllDigits(text[..width]) && text[width] == separator
    then Some(Field(NumberOf(text[..width]), text[width + 1..]))
    else None
  }

  /** The second with these calendar and clock fields; None where a field is out of range. */
  function SecondsOf(year: nat, month: nat, day: nat, hour: nat, minute: nat, second: nat): Option<nat> {
    if 1 <= month <= 12 && 1 <= day <= MonthLen(MonthIndex(year, month)) && hour < 24 && minute < 60 && second < 60
    then Some(DayNumber(Date(MonthIndex(year, month), day)) * DAY + hour * 3600 + minute * 60 + second)
    else None
  }

  /** The whole second a text denotes under the layout 2006-01-02T15:04:05Z; None where the
      library reports an error. */
  function ParseSeconds(text: string): Option<nat> {
    var year :- ReadField(text, 4, '-');
    var month :- ReadField(year.rest, 2, '-');
    var day :- ReadField(month.rest, 2, 'T');
    var hour :- ReadField(day.rest, 2, ':');
    var minute :- ReadField(hour.rest, 2, ':');
    var second :- ReadField(minute.rest, 2, 'Z');
    if second.rest != "" then None
    else SecondsOf(year.value, month.value, day.value, hour.value, minute.value, second.value)
  }

  /** The time the caller gets for a text that does not parse: 0001-01-01T00:00:00Z. */
  const ZERO_TIME: Instant := 366 * DAY * NANOS

  /** `ParseTime` drops the library's error, so a malformed text reads as the zero time. */
  function ParseTime(text: string): Instant {
    match ParseSeconds(text)
    case Some(s) => s * NANOS
    case None => ZERO_TIME
  }

  /** A text that does not parse reads as the first instant of year 1. */
  lemma MalformedIsYearOne(text: string)
    requires ParseSeconds(text).None?
    ensures FmtTime(ParseTime(text)) == "0001-01-01T00:00:00Z"
  {
    var s := YearStart(1, 12);
    hide FmtSeconds, MonthText, ParseSeconds;
    YearOne();
    SecondsOfWhole(366 * DAY);
    Joined();
  }

  lemma SecondsOfWhole(s: nat)
    ensures Seconds(s * NANOS) == s
  {
  }

  lemma Joined()
    ensures "0001-01" + "-01T00:00:00Z" == "0001-01-01T00:00:00Z"
  {
  }

  lemma YearStart(year: nat, month: nat) returns (s: nat)
    requires year == 1 && month == 12 * year
    ensures s == 366 * DAY && FmtSeconds(s) == MonthText(month) + "-01T00:00:00Z"
  {
    s := FirstOfMonth(month);
    GregorianYears(year);
  }

  lemma YearOne()
    ensures MonthText(12) == "0001-01"
  {
    assert Pad(1, 4) == "0001" by {
      assert Pad(0, 1) == "0" && Pad(0, 2) == "00" && Pad(0, 3) == "000";
    }
    assert Pad(1, 2) == "01" by {
      assert Pad(0, 1) == "0";
    }
    assert 12 / 12 == 1 && 12 % 12 + 1 == 1;
  }

  function WriteField(n: nat, width: nat, separator: char, rest: string): string {
    Pad(n, width) + [separator] + rest
  }

  function Layout(year: nat, month: nat, day: nat, hour: nat, minute: nat, second: nat): string {
    WriteField(year, 4, '-', WriteField(month, 2, '-', WriteField(day, 2, 'T',
      WriteField(hour, 2, ':', WriteField(minute, 2, ':', WriteField(second, 2, 'Z', ""))))))
  }

  lemma ReadWritten(n: nat, width: nat, separator: char, rest: string)
    requires n < Pow10(width)
    ensures ReadField(WriteField(n, width, separator, rest), width, separator) == Some(Field(n, rest))
  {
    PadReads(n, width);
    var text := WriteField(n, width, separator, rest);
    assert text[..width] == Pad(n, width) && text[width + 1..] == rest;
  }

  lemma WrittenAsRead(text: string, width: nat, separator: char)
    requires ReadField(text, width, separator).Some?
    ensures var f := ReadField(text, width, separator).value;
      f.value < Pow10(width) && text == WriteField(f.value, width, separator, f.rest)
  {
    var digits := text[..width];
    PadPrints(digits);
    assert Pad(NumberOf(digits), width) == digits;
    assert text == digits + [text[width]] + text[width + 1..];
  }

  lemma Widths()
    ensures Pow10(2) == 100 && Pow10(4) == 10_000
  {
  }

  lemma LayoutParses(year: nat, month: nat, day: nat, hour: nat, minute: nat, second: nat)
    requires year < 10_000 && month < 100 && day < 100 && hour < 100 && minute < 100 && second < 100
    ensures ParseSeconds(Layout(year, month, day, hour, minute, second))
         == SecondsOf(year, month, day, hour, minute, second)
  {
    Widths();
    var s := WriteField(second, 2, 'Z', "");
    var mi := WriteField(minute, 2, ':', s);
    var h := WriteField(hour, 2, ':', mi);
    var d := WriteField(day, 2, 'T', h);
    var mo := WriteField(month, 2, '-', d);
    ReadWritten(year, 4, '-', mo);
    ReadWritten(month, 2, '-', d);
    ReadWritten(day, 2, 'T', h);
    ReadWritten(hour, 2, ':', mi);
    ReadWritten(minute, 2, ':', s);
    ReadWritten(second, 2, 'Z', "");
  }

  lemma ParsesAsLayout(text: string) returns (year: nat, month: nat, day: nat, hour: nat, minute: nat, second: nat)
    requires ParseSeconds(text).Some?
    ensures year < 10_000
    ensures text == Layout(year, month, day, hour, minute, second)
    ensures ParseSeconds(text) == SecondsOf(year, month, day, hour, minute, second)
  {
    Widths();
    var y := ReadField(text, 4, '-').value;
    var mo := ReadField(y.rest, 2, '-').value;
    var d := ReadField(mo.rest, 2, 'T').value;
    var h := ReadField(d.rest, 2, ':').value;
    var mi := ReadField(h.rest, 2, ':').value;
    var s := ReadField(mi.rest, 2, 'Z').value;
    WrittenAsRead(text, 4, '-');
    WrittenAsRead(y.rest, 2, '-');
    WrittenAsRead(mo.rest, 2, 'T');
    WrittenAsRead(d.rest, 2, ':');
    WrittenAsRead(h.rest, 2, ':');
    WrittenAsRead(mi.rest, 2, 'Z');
    year, month, day, hour, minute, second := y.value, mo.value, d.value, h.value, mi.value, s.value;
  }

  lemma FmtIsLayout(s: nat)
    requires FourDigitYear(s)
    ensures var (d, c) := (DateOf(s / DAY), s % DAY);
      FmtSeconds(s) == Layout(d.month / 12, d.month % 12 + 1, d.day, c / 3600, c / 60 % 60, c % 60)
  {
    var (d, c) := (DateOf(s / DAY), s % DAY);
    Concat(Pad(d.month / 12, 4), Pad(d.month % 12 + 1, 2), Pad(d.day, 2),
           Pad(c / 3600, 2), Pad(c / 60 % 60, 2), Pad(c % 60, 2));
  }

  lemma Concat(a: string, b: string, c: string, d: string, e: string, f: string)
    ensures a + "-" + b + "-" + c + "T" + (d + ":" + e + ":" + f) + "Z"
         == a + ['-'] + (b + ['-'] + (c + ['T'] + (d + [':'] + (e + [':'] + (f + ['Z'] + "")))))
  {
  }

  lemma FieldsOfSecond(s: nat)
    ensures var (d, c) := (DateOf(s / DAY), s % DAY);
      SecondsOf(d.month / 12, d.month % 12 + 1, d.day, c / 3600, c / 60 % 60, c % 60) == Some(s)
  {
    var (d, c) := (DateOf(s / DAY), s % DAY);
    ClockFields(c);
    DateRoundTrip(s / DAY, d);
    assert MonthIndex(d.month / 12, d.month % 12 + 1) == d.month;
  }

  lemma SecondOfFields(year: nat, month: nat, day: nat, hour: nat, minute: nat, second: nat)
    requires SecondsOf(year, month, day, hour, minute, second).Some?
    ensures var s := SecondsOf(year, month, day, hour, minute, second).value;
      var (d, c) := (DateOf(s / DAY), s % DAY);
      && d.month / 12 == year && d.month % 12 + 1 == month && d.day == day
      && c / 3600 == hour && c / 60 % 60 == minute && c % 60 == second
  {
    var s := SecondsOf(year, month, day, hour, minute, second).value;
    var d := Date(MonthIndex(year, month), day);
    var c := hour * 3600 + minute * 60 + second;
    ClockOf(hour, minute, second);
    SplitMonth(year, month - 1);
    assert s / DAY == DayNumber(d) && s % DAY == c by {
      SplitDay(DayNumber(d), c);
      assert s == DayNumber(d) * DAY + c;
    }
    assert DateOf(s / DAY) == d by {
      DateRoundTrip(0, d);
    }
  }

  lemma SplitDay(day: nat, c: nat)
    requires c < DAY
    ensures (day * DAY + c) / DAY == day && (day * DAY + c) % DAY == c
  {
  }

  lemma ClockOf(hour: nat, minute: nat, second: nat)
    requires hour < 24 && minute < 60 && second < 60
    ensures var c := hour * 3600 + minute * 60 + second;
      c / 3600 == hour && c / 60 % 60 == minute && c % 60 == second
  {
    var c := hour * 3600 + minute * 60 + second;
    assert c / 60 == hour * 60 + minute;
  }

  /** Every rendered second of a four-digit year reads back as that second. */
  lemma ParseInvertsFmt(s: nat)
    requires FourDigitYear(s)
    ensures ParseSeconds(FmtSeconds(s)) == Some(s)
  {
    var (d, c) := (DateOf(s / DAY), s % DAY);
    FmtIsLayout(s);
    LayoutParses(d.month / 12, d.month % 12 + 1, d.day, c / 3600, c / 60 % 60, c % 60);
    FieldsOfSecond(s);
  }

  lemma PartAt(before: string, part: string, rest: string)
    ensures (before + part + rest)[|before|..|before| + |part|] == part
  {
  }

  lemma Slices(a: string, b: string, c: string, d: string, e: string, f: string)
    requires |a| == 4 && |b| == |c| == |d| == |e| == |f| == 2
    ensures var text := a + "-" + b + "-" + c + "T" + (d + ":" + e + ":" + f) + "Z";
      && |text| == 20 && text[4] == '-' && text[7] == '-' && text[10] == 'T' && text[13] == ':' && text[16] == ':' && text[19] == 'Z'
      && text[0..4] == a && text[5..7] == b && text[8..10] == c && text[11..13] == d && text[14..16] == e && text[17..19] == f
  {
    var text := a + "-" + b + "-" + c + "T" + (d + ":" + e + ":" + f) + "Z";
    var (date, clock) := (a + "-" + b + "-" + c, d + ":" + e + ":" + f);
    assert text == date + "T" + clock + "Z";
    PartAt("", a, "-" + b + "-" + c);
    PartAt(a + "-", b, "-" + c);
    PartAt(a + "-" + b + "-", c, "");
    PartAt("", d, ":" + e + ":" + f);
    PartAt(d + ":", e, ":" + f);
    PartAt(d + ":" + e + ":", f, "");
    assert date == "" + a + ("-" + b + "-" + c) == a + "-" + b + ("-" + c) == a + "-" + b + "-" + c + "";
    assert clock == "" + d + (":" + e + ":" + f) == d + ":" + e + (":" + f) == d + ":" + e + ":" + f + "";
    hide *;
    assert text[0..4] == date[0..4] && text[5..7] == date[5..7] && text[8..10] == date[8..10];
    assert text[11..13] == clock[0..2] && text[14..16] == clock[3..5] && text[17..19] == clock[6..8];
  }

  /** The text of a second has the form YYYY-MM-DDThh:mm:ssZ of RFC 3339 section 5.6, and its digits are
      the year, month and day of the calendar day and the hour, minute and second of the clock. */
  lemma FmtReads(s: nat)
    requires FourDigitYear(s)
    ensures var (text, d) := (FmtSeconds(s), DateOf(s / DAY));
      && |text| == 20 && text[4] == '-' && text[7] == '-' && text[10] == 'T' && text[13] == ':' && text[16] == ':' && text[19] == 'Z'
      && AllDigits(text[0..4]) && NumberOf(text[0..4]) == d.month / 12
      && AllDigits(text[5..7]) && NumberOf(text[5..7]) == d.month % 12 + 1
      && AllDigits(text[8..10]) && NumberOf(text[8..10]) == d.day
      && AllDigits(text[11..13]) && NumberOf(text[11..13]) == s % 86_400 / 3_600
      && AllDigits(text[14..16]) && NumberOf(text[14..16]) == s % 3_600 / 60
      && AllDigits(text[17..19]) && NumberOf(text[17..19]) == s % 60
  {
    hide FmtSeconds, Pad, NumberOf, Pow10, AllDigits;
    var (text, d, c) := (FmtSeconds(s), DateOf(s / DAY), s % DAY);
    PartsOf(s);
    Slices(Pad(d.month / 12, 4), Pad(d.month % 12 + 1, 2), Pad(d.day, 2), Pad(c / 3600, 2), Pad(c / 60 % 60, 2), Pad(c % 60, 2));
    Widths();
    ClockParts(s);
    PadIsNumber(text[0..4], d.month / 12, 4);
    PadIsNumber(text[5..7], d.month % 12 + 1, 2);
    PadIsNumber(text[8..10], d.day, 2);
    PadIsNumber(text[11..13], c / 3600, 2);
    PadIsNumber(text[14..16], c / 60 % 60, 2);
    PadIsNumber(text[17..19], c % 60, 2);
  }

  lemma PartsOf(s: nat)
    requires FourDigitYear(s)
    ensures var (d, c) := (DateOf(s / DAY), s % DAY);
      FmtSeconds(s) == Pad(d.month / 12, 4) + "-" + Pad(d.month % 12 + 1, 2) + "-" + Pad(d.day, 2)
        + "T" + (Pad(c / 3600, 2) + ":" + Pad(c / 60 % 60, 2) + ":" + Pad(c % 60, 2)) + "Z"
  {
    hide Pad;
  }

  lemma PadIsNumber(text: string, n: nat, width: nat)
    requires n < Pow10(width) && text == Pad(n, width)
    ensures AllDigits(text) && NumberOf(text) == n
  {
    PadReads(n, width);
  }

  lemma ClockParts(s: nat)
    ensures s % 86_400 / 60 % 60 == s % 3_600 / 60 && s % 86_400 % 60 == s % 60
  {
    var (day, c) := (s / 86_400, s % 86_400);
    var (hour, r) := (c / 3_600, c % 3_600);
    assert s == 60 * (1_440 * day) + c && s == 3_600 * (24 * day + hour) + r;
    Multiple60(1_440 * day, c);
    Multiple3600(24 * day + hour, r);
    Minutes(hour, r);
  }

  lemma Multiple60(k: nat, c: nat)
    ensures (60 * k + c) % 60 == c % 60
  {
  }

  lemma Multiple3600(k: nat, r: nat)
    requires r < 3_600
    ensures (3_600 * k + r) % 3_600 == r
  {
  }

  lemma Minutes(hour: nat, r: nat)
    requires r < 3_600
    ensures (3_600 * hour + r) / 60 % 60 == r / 60
  {
    assert (3_600 * hour + r) / 60 == 60 * hour + r / 60;
    Multiple60(hour, r / 60);
  }

  /** Every text that parses is the rendering of the second it denotes. */
  lemma FmtInvertsParse(text: string)
    requires ParseSeconds(text).Some?
    ensures FourDigitYear(ParseSeconds(text).value)
    ensures FmtSeconds(ParseSeconds(text).value) == text
  {
    var year, month, day, hour, minute, second := ParsesAsLayout(text);
    SecondOfFields(year, month, day, hour, minute, second);
    FmtIsLayout(ParseSeconds(text).value);
  }

  /** The stamps of years 0000-9999 are exactly the texts that parse. */
  lemma StampsParse(text: string)
    ensures IsStamp(text) <==> ParseSeconds(text).Some?
  {
    if ParseSeconds(text).Some? {
      FmtInvertsParse(text);
    } else if IsStamp(text) {
      var s :| FourDigitYear(s) && text == FmtSeconds(s);
      ParseInvertsFmt(s);
    }
  }

  /** Writing a time and reading it back loses the fraction of its second and nothing else. */
  lemma TruncatesToSecond(t: Instant)
    requires FourDigitYear(Seconds(t))
    ensures ParseTime(FmtTime(t)) == Seconds(t) * NANOS
    ensures ParseTime(FmtTime(t)) <= t < ParseTime(FmtTime(t)) + NANOS
  {
    ParseInvertsFmt(Seconds(t));
  }
}
