/** Timestamps as text (internal/store/store.go): `FmtTime` writes a time as an RFC 3339 text in
    UTC, `ParseTime` reads one back, and every query compares those texts instead of times. */
module TimeText {
  import opened Text
  import opened Calendar

  /** A UTC time in nanoseconds since 0000-01-01T00:00:00Z. */
  type Instant = nat

  const NANOS := 1_000_000_000
  const DAY := 86_400
  const END_MONTH := 120_000 // January of year 10000

  function Seconds(t: Instant): nat {
    t / NANOS
  }

  /** The year is written with at least four digits. */
  function YearText(year: nat): string {
    if year < 10_000 then Pad(year, 4) else Decimal(year)
  }

  function MonthText(month: nat): string {
    YearText(month / 12) + "-" + Pad(month % 12 + 1, 2)
  }

  function DateText(day: nat): string {
    MonthText(DateOf(day).month) + "-" + Pad(DateOf(day).day, 2)
  }

  function ClockText(second: nat): string
    requires second < DAY
  {
    Pad(second / 3600, 2) + ":" + Pad(second / 60 % 60, 2) + ":" + Pad(second % 60, 2)
  }

  function FmtSeconds(s: nat): string {
    DateText(s / DAY) + "T" + ClockText(s % DAY) + "Z"
  }

  function FmtTime(t: Instant): string {
    FmtSeconds(Seconds(t))
  }

  /** The second `s` lies in one of the years 0000 to 9999. */
  predicate FourDigitYear(s: nat) {
    DateOf(s / DAY).month < END_MONTH
  }

  lemma SecondsMonotone(a: nat, b: nat)
    requires a <= b && FourDigitYear(b)
    ensures FourDigitYear(a)
  {
    NoLaterMonth(a / DAY, b / DAY);
  }

  /** The texts the store can hold: the renderings of whole seconds in years 0000 to 9999. */
  ghost predicate IsStamp(text: string) {
    exists s :: FourDigitYear(s) && text == FmtSeconds(s)
  }

  // ---------------------------------------------------------------- order

  lemma MonthTextOrder(a: nat, b: nat)
    requires a < END_MONTH && b < END_MONTH
    ensures |MonthText(a)| == 7
    ensures Less(MonthText(a), MonthText(b)) <==> a < b
    ensures MonthText(a) == MonthText(b) <==> a == b
  {
    var (ya, yb) := (Pad(a / 12, 4), Pad(b / 12, 4));
    var (ma, mb) := (Pad(a % 12 + 1, 2), Pad(b % 12 + 1, 2));
    assert Pow10(4) == 10_000 && Pow10(2) == 100;
    PadOrder(a / 12, b / 12, 4);
    PadOrder(a % 12 + 1, b % 12 + 1, 2);
    LessBlocks(ya + "-", yb + "-", ma, mb);
    LessBlocks(ya, yb, "-", "-");
    LessIrreflexive("-");
    BlocksEqual(ya + "-", ma, yb + "-", mb);
    BlocksEqual(ya, "-", yb, "-");
  }

  lemma BlocksEqual(a: string, x: string, b: string, y: string)
    requires |a| == |b|
    ensures a + x == b + y <==> a == b && x == y
  {
    assert (a + x)[..|a|] == a && (a + x)[|a|..] == x;
    assert (b + y)[..|a|] == b && (b + y)[|a|..] == y;
  }

  lemma DateTextOrder(a: nat, b: nat)
    requires DateOf(a).month < END_MONTH && DateOf(b).month < END_MONTH
    ensures |DateText(a)| == 10
    ensures Less(DateText(a), DateText(b)) <==> a < b
    ensures DateText(a) == DateText(b) <==> a == b
  {
    var (da, db) := (DateOf(a), DateOf(b));
    DateRoundTrip(a, da);
    DateRoundTrip(b, db);
    DateOrder(da, db);
    MonthTextOrder(da.month, db.month);
    MonthTextOrder(db.month, da.month);
    assert Pow10(2) == 100;
    PadOrder(da.day, db.day, 2);
    var (ma, mb) := (MonthText(da.month), MonthText(db.month));
    LessBlocks(ma + "-", mb + "-", Pad(da.day, 2), Pad(db.day, 2));
    LessBlocks(ma, mb, "-", "-");
    LessIrreflexive("-");
    BlocksEqual(ma + "-", Pad(da.day, 2), mb + "-", Pad(db.day, 2));
    BlocksEqual(ma, "-", mb, "-");
  }

  lemma ClockTextOrder(a: nat, b: nat)
    requires a < DAY && b < DAY
    ensures |ClockText(a)| == 8
    ensures Less(ClockText(a), ClockText(b)) <==> a < b
    ensures ClockText(a) == ClockText(b) <==> a == b
  {
    assert Pow10(2) == 100;
    var (ha, hb) := (Pad(a / 3600, 2), Pad(b / 3600, 2));
    var (ma, mb) := (Pad(a / 60 % 60, 2), Pad(b / 60 % 60, 2));
    var (sa, sb) := (Pad(a % 60, 2), Pad(b % 60, 2));
    PadOrder(a / 3600, b / 3600, 2);
    PadOrder(a / 60 % 60, b / 60 % 60, 2);
    PadOrder(a % 60, b % 60, 2);
    LessIrreflexive(":");
    LessBlocks(ha + ":" + ma + ":", hb + ":" + mb + ":", sa, sb);
    LessBlocks(ha + ":" + ma, hb + ":" + mb, ":", ":");
    LessBlocks(ha + ":", hb + ":", ma, mb);
    LessBlocks(ha, hb, ":", ":");
    BlocksEqual(ha + ":" + ma + ":", sa, hb + ":" + mb + ":", sb);
    BlocksEqual(ha + ":" + ma, ":", hb + ":" + mb, ":");
    BlocksEqual(ha + ":", ma, hb + ":", mb);
    BlocksEqual(ha, ":", hb, ":");
    ClockFields(a);
    ClockFields(b);
  }

  lemma ClockFields(s: nat)
    ensures s == s / 3600 * 3600 + s / 60 % 60 * 60 + s % 60
  {
    assert s / 3600 == s / 60 / 60;
  }

  /** Rendering embeds the seconds of years 0000-9999, in order, into text. */
  lemma FmtOrder(a: nat, b: nat)
    requires FourDigitYear(a) && FourDigitYear(b)
    ensures |FmtSeconds(a)| == 20
    ensures Less(FmtSeconds(a), FmtSeconds(b)) <==> a < b
    ensures Leq(FmtSeconds(a), FmtSeconds(b)) <==> a <= b
    ensures FmtSeconds(a) == FmtSeconds(b) <==> a == b
  {
    FmtLess(a, b);
    FmtLess(b, a);
  }

  lemma FmtLess(a: nat, b: nat)
    requires FourDigitYear(a) && FourDigitYear(b)
    ensures |FmtSeconds(a)| == 20
    ensures Less(FmtSeconds(a), FmtSeconds(b)) <==> a < b
    ensures FmtSeconds(a) == FmtSeconds(b) <==> a == b
  {
    var (da, db) := (DateText(a / DAY), DateText(b / DAY));
    var (ca, cb) := (ClockText(a % DAY), ClockText(b % DAY));
    DateTextOrder(a / DAY, b / DAY);
    DateTextOrder(b / DAY, a / DAY);
    ClockTextOrder(a % DAY, b % DAY);
    ClockTextOrder(b % DAY, a % DAY);
    LessIrreflexive("T");
    LessIrreflexive("Z");
    LessBlocks(da + "T" + ca, db + "T" + cb, "Z", "Z");
    LessBlocks(da + "T", db + "T", ca, cb);
    LessBlocks(da, db, "T", "T");
    BlocksEqual(da + "T" + ca, "Z", db + "T" + cb, "Z");
    BlocksEqual(da + "T", ca, db + "T", cb);
    BlocksEqual(da, "T", db, "T");
    assert a == a / DAY * DAY + a % DAY && b == b / DAY * DAY + b % DAY;
  }

  ghost predicate OrderedBefore(end: nat) {
    forall a: nat, b: nat :: a < end && b < end ==> (Less(FmtSeconds(a), FmtSeconds(b)) <==> a < b)
  }

  /** The seconds before year 10000, that is, `end == DaysBefore(END_MONTH) * DAY`, are exactly
      those on which text order is time order: it holds below `end` if and only if every second
      below `end` has a four-digit year. */
  lemma FmtOrderExactly(end: nat)
    ensures OrderedBefore(end) <==> forall s: nat :: s < end ==> FourDigitYear(s)
  {
    if forall s: nat :: s < end ==> FourDigitYear(s) {
      forall a: nat, b: nat | a < end && b < end
        ensures Less(FmtSeconds(a), FmtSeconds(b)) <==> a < b
      {
        FmtOrder(a, b);
      }
    } else {
      var s: nat :| s < end && !FourDigitYear(s);
      var early, late := FirstFiveDigitSecond(s, END_MONTH, 24_000);
      assert late < end && early < end;
      assert !(Less(FmtSeconds(early), FmtSeconds(late)) <==> early < late) by {
        LessTotal(FmtSeconds(early), FmtSeconds(late));
      }
    }
  }

  /** The first second of a month, and its rendering. */
  lemma FirstOfMonth(month: nat) returns (s: nat)
    ensures s == DaysBefore(month) * DAY
    ensures DateOf(s / DAY) == Date(month, 1) && s % DAY == 0
    ensures FmtSeconds(s) == MonthText(month) + "-01T00:00:00Z"
  {
    s := DaysBefore(month) * DAY;
    assert s / DAY == DaysBefore(month) && s % DAY == 0;
    DateRoundTrip(DaysBefore(month), Date(month, 1));
    Midnight(s, month);
  }

  lemma Midnight(s: nat, month: nat)
    requires DateOf(s / DAY) == Date(month, 1) && s % DAY == 0
    ensures FmtSeconds(s) == MonthText(month) + "-01T00:00:00Z"
  {
    MidnightText();
    var date := MonthText(month) + "-" + "01";
    assert DateText(s / DAY) == date;
    assert date + "T" + "00:00:00" + "Z" == MonthText(month) + ("-" + "01" + "T" + "00:00:00" + "Z");
    assert "-" + "01" + "T" + "00:00:00" + "Z" == "-01T00:00:00Z";
  }

  lemma MidnightText()
    ensures Pad(1, 2) == "01" && ClockText(0) == "00:00:00"
  {
    assert Pad(0, 1) == "0" && Pad(0, 2) == "00" && Pad(1, 2) == "01";
  }

  lemma FirstFiveDigitSecond(s: nat, end: nat, y2000: nat) returns (early: nat, late: nat)
    requires !FourDigitYear(s) && end == END_MONTH && y2000 == 24_000
    ensures early < late <= s && Less(FmtSeconds(late), FmtSeconds(early))
  {
    late := FirstOfMonth(end);
    early := FirstOfMonth(y2000);
    MonthsCompareAsText(end, y2000);
    NoEarlierSecond(s, end);
    DaysBeforeMonotone(y2000, end);
  }

  /** "10000" is not a four-digit year: as text it sorts before the year 2000. */
  lemma MonthsCompareAsText(end: nat, y2000: nat)
    requires end == END_MONTH && y2000 == 24_000
    ensures Less(MonthText(end) + "-01T00:00:00Z", MonthText(y2000) + "-01T00:00:00Z")
  {
    LeadingDigit(10_000);
    LeadingDigit(2_000);
    assert end / 12 == 10_000 && y2000 / 12 == 2_000;
    assert MonthText(end)[0] == YearText(10_000)[0];
    assert MonthText(y2000)[0] == YearText(2_000)[0];
  }

  lemma LeadingDigit(year: nat)
    requires year == 10_000 || year == 2_000
    ensures |YearText(year)| > 0 && YearText(year)[0] == if year == 10_000 then '1' else '2'
  {
    if year == 10_000 {
      assert Decimal(10_000) == Decimal(1_000) + "0" && Decimal(1_000) == Decimal(100) + "0";
      assert Decimal(100) == Decimal(10) + "0" && Decimal(10) == Decimal(1) + "0";
    } else {
      assert Pad(2_000, 4) == Pad(200, 3) + "0" && Pad(200, 3) == Pad(20, 2) + "0";
      assert Pad(20, 2) == Pad(2, 1) + "0" && Pad(2, 1) == Pad(0, 0) + "2";
    }
  }

  lemma NoEarlierSecond(s: nat, month: nat)
    requires DateOf(s / DAY).month >= month
    ensures DaysBefore(month) * DAY <= s
  {
    DateRoundTrip(s / DAY, DateOf(s / DAY));
    MonthStart(month, DateOf(s / DAY));
    assert DaysBefore(month) <= s / DAY;
  }

  lemma MonthStart(month: nat, d: Date)
    requires Valid(d) && month <= d.month
    ensures DaysBefore(month) <= DayNumber(d)
  {
    if month < d.month {
      DaysBeforeMonotone(month, d.month);
    }
  }
}
