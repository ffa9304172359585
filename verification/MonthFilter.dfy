/** The month filter of the statistics (internal/store/stats.go): a half-open range of timestamp
    texts that replaces the filter `created_at LIKE 'YYYY-MM%'`. */
module MonthFilter {
  import opened Text
  import opened Calendar
  import opened TimeText

  /** The month a "2006-01" prefix names. */
  function ParseMonth(prefix: string): Option<nat> {
    if |prefix| == 7 && prefix[4] == '-' && AllDigits(prefix[0..4]) && AllDigits(prefix[5..7])
       && 1 <= NumberOf(prefix[5..7]) <= 12
    then Some(MonthIndex(NumberOf(prefix[0..4]), NumberOf(prefix[5..7])))
    else None
  }

  datatype Range = Range(from: string, to: string)

  const LAST_CHAR: char := '\U{FFFF}'

  function FirstSecond(month: nat): nat {
    DaysBefore(month) * DAY
  }

  function MonthRange(prefix: string): Range {
    match ParseMonth(prefix)
    case Some(month) => Range(FmtSeconds(FirstSecond(month)), FmtSeconds(FirstSecond(month + 1)))
    case None => Range(prefix, prefix + [LAST_CHAR])
  }

  /** `created_at >= from AND created_at < to` */
  predicate InRange(text: string, r: Range) {
    Leq(r.from, text) && Less(text, r.to)
  }

  lemma MonthIndexParts(year: nat, month: nat)
    requires 1 <= month <= 12
    ensures MonthIndex(year, month) / 12 == year && MonthIndex(year, month) % 12 + 1 == month
    ensures year < 10_000 ==> MonthIndex(year, month) < END_MONTH
  {
    SplitMonth(year, month - 1);
    assert MonthIndex(year, month) == 12 * year + (month - 1);
  }

  lemma MonthOfDigits(year: string, month: string)
    requires |year| == 4 && |month| == 2 && AllDigits(year) && AllDigits(month) && 1 <= NumberOf(month) <= 12
    ensures var m := MonthIndex(NumberOf(year), NumberOf(month));
      m < END_MONTH && MonthText(m) == year + "-" + month
  {
    hide Decimal, Pad, NumberOf, Pow10, AllDigits, MonthIndex;
    PadPrints(year);
    PadPrints(month);
    FourDigits();
    MonthIndexParts(NumberOf(year), NumberOf(month));
  }

  lemma PrefixNamesMonth(prefix: string)
    requires ParseMonth(prefix).Some?
    ensures ParseMonth(prefix).value < END_MONTH && MonthText(ParseMonth(prefix).value) == prefix
  {
    hide MonthText, NumberOf, AllDigits, MonthIndex;
    var (year, month) := (prefix[0..4], prefix[5..7]);
    MonthOfDigits(year, month);
    assert prefix == year + "-" + month;
  }

  lemma FourDigits()
    ensures Pow10(4) == 10_000
  {
  }

  /** A stamp starts with the text of its month. */
  lemma StampMonth(s: nat, month: nat)
    requires FourDigitYear(s) && month < END_MONTH
    ensures MonthText(month) <= FmtSeconds(s) <==> DateOf(s / DAY).month == month
  {
    var d := DateOf(s / DAY);
    MonthTextOrder(d.month, month);
    MonthTextOrder(month, d.month);
    assert FmtSeconds(s)[..7] == MonthText(d.month);
  }

  lemma MonthOfSecond(s: nat, month: nat)
    ensures FirstSecond(month) <= s < FirstSecond(month + 1) <==> DateOf(s / DAY).month == month
  {
    var d := DateOf(s / DAY);
    DateRoundTrip(s / DAY, d);
    assert s / DAY == DayNumber(d);
    if d.month < month {
      DaysBeforeMonotone(d.month, month);
    } else if d.month > month {
      MonthStart(month + 1, d);
    } else {
      assert DaysBefore(month + 1) == DaysBefore(month) + MonthLen(month);
    }
  }

  /** For every month but the last, the range selects exactly the stamps with that prefix. */
  lemma RangeIsPrefix(prefix: string, text: string)
    requires ParseMonth(prefix).Some? && ParseMonth(prefix).value + 1 < END_MONTH && IsStamp(text)
    ensures InRange(text, MonthRange(prefix)) <==> prefix <= text
  {
    var s :| FourDigitYear(s) && text == FmtSeconds(s);
    SecondSelected(prefix, ParseMonth(prefix).value, s);
  }

  lemma RangeOfMonth(prefix: string, month: nat)
    requires ParseMonth(prefix) == Some(month)
    ensures MonthRange(prefix) == Range(FmtSeconds(FirstSecond(month)), FmtSeconds(FirstSecond(month + 1)))
  {
  }

  lemma SecondSelected(prefix: string, month: nat, s: nat)
    requires ParseMonth(prefix) == Some(month) && month + 1 < END_MONTH && FourDigitYear(s)
    ensures InRange(FmtSeconds(s), MonthRange(prefix)) <==> prefix <= FmtSeconds(s)
  {
    RangeOfMonth(prefix, month);
    PrefixNamesMonth(prefix);
    MonthSelects(month, s);
  }

  lemma MonthSelects(month: nat, s: nat)
    requires month + 1 < END_MONTH && FourDigitYear(s)
    ensures InRange(FmtSeconds(s), Range(FmtSeconds(FirstSecond(month)), FmtSeconds(FirstSecond(month + 1))))
       <==> MonthText(month) <= FmtSeconds(s)
  {
    FirstSecondInMonth(month);
    FirstSecondInMonth(month + 1);
    RangeOfSeconds(FirstSecond(month), FirstSecond(month + 1), s);
    MonthOfSecond(s, month);
    StampMonth(s, month);
  }

  /** A range between two rendered seconds selects the seconds in between. */
  lemma RangeOfSeconds(from: nat, to: nat, s: nat)
    requires FourDigitYear(from) && FourDigitYear(to) && FourDigitYear(s)
    ensures InRange(FmtSeconds(s), Range(FmtSeconds(from), FmtSeconds(to))) <==> from <= s < to
  {
    FmtOrder(from, s);
    FmtOrder(s, to);
  }

  lemma FirstSecondInMonth(month: nat)
    ensures DateOf(FirstSecond(month) / DAY) == Date(month, 1)
  {
    var s := FirstOfMonth(month);
  }

  /** December 9999 ends at "10000-01-01T00:00:00Z", which sorts before it: its range is empty. */
  lemma LastMonthIsEmpty(month: nat, prefix: string, text: string)
    requires ParseMonth(prefix) == Some(month) && month + 1 == END_MONTH && IsStamp(text)
    ensures !InRange(text, MonthRange(prefix))
  {
    var start := FirstOfMonth(month);
    var end := FirstOfMonth(month + 1);
    LeadingDigit(10_000);
    NinesLead(9_999);
    assert (month + 1) / 12 == 10_000 && month / 12 == 9_999;
    assert MonthText(month + 1)[0] == '1' && MonthText(month)[0] == '9';
    ReversedRangeIsEmpty(MonthRange(prefix), text);
  }

  lemma ReversedRangeIsEmpty(r: Range, text: string)
    requires Less(r.to, r.from)
    ensures !InRange(text, r)
  {
    if Leq(r.from, text) {
      LessLeq(r.to, r.from, text);
      LessTotal(r.to, text);
    }
  }

  lemma NinesLead(year: nat)
    requires year == 9_999
    ensures YearText(year)[0] == '9'
  {
    assert Pad(9_999, 4) == Pad(999, 3) + "9" && Pad(999, 3) == Pad(99, 2) + "9";
    assert Pad(99, 2) == Pad(9, 1) + "9" && Pad(9, 1) == Pad(0, 0) + "9";
  }

  /** The range refines the old prefix filter on every month except 9999-12, and only there not. */
  lemma RangeIsPrefixExactly(prefix: string)
    requires ParseMonth(prefix).Some?
    ensures (forall text :: IsStamp(text) ==> (InRange(text, MonthRange(prefix)) <==> prefix <= text))
       <==> ParseMonth(prefix).value + 1 < END_MONTH
  {
    var month := ParseMonth(prefix).value;
    PrefixNamesMonth(prefix);
    if month + 1 < END_MONTH {
      forall text | IsStamp(text)
        ensures InRange(text, MonthRange(prefix)) <==> prefix <= text
      {
        RangeIsPrefix(prefix, text);
      }
    } else {
      FirstSecondInMonth(month);
      var text := FmtSeconds(FirstSecond(month));
      assert IsStamp(text);
      StampMonth(FirstSecond(month), month);
      LastMonthIsEmpty(month, prefix, text);
    }
  }

  /** A malformed prefix scopes to the texts that start with it literally. */
  lemma MalformedIsLiteral(prefix: string, text: string)
    requires ParseMonth(prefix).None? && forall k :: 0 <= k < |text| ==> text[k] < '\U{FFFF}'
    ensures InRange(text, MonthRange(prefix)) <==> prefix <= text
  {
    LiteralRange(prefix, text);
  }

  lemma {:induction false} LiteralRange(prefix: string, text: string)
    requires forall k :: 0 <= k < |text| ==> text[k] < LAST_CHAR
    ensures InRange(text, Range(prefix, prefix + [LAST_CHAR])) <==> prefix <= text
  {
    if prefix == [] {
      LessTotal(prefix, text);
    } else if text != [] {
      assert (prefix + [LAST_CHAR])[1..] == prefix[1..] + [LAST_CHAR];
      LiteralRange(prefix[1..], text[1..]);
      assert prefix <= text <==> prefix[0] == text[0] && prefix[1..] <= text[1..] by {
        assert prefix == [prefix[0]] + prefix[1..] && text == [text[0]] + text[1..];
      }
    }
  }
}
