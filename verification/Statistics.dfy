/** The statistics queries (internal/store/stats.go) and the dashboard built from them
    (internal/admin/admin.go): grouped counts add up to the totals of the same window. */
module Statistics {
  import opened Text
  import opened SortedTexts
  import opened Calendar
  import opened TimeText
  import opened MonthFilter
  import opened Emails
  import MonthlyReports
  import P = Protocol

  // ---------------------------------------------------------------- counting rows

  type Selection = Email -> bool
  type Grouping = Email -> string

  function Count(t: Table, selected: Selection): nat {
    if t == [] then 0 else Count(t[..|t| - 1], selected) + if selected(t[|t| - 1]) then 1 else 0
  }

  function CountIn(t: Table, selected: Selection, group: Grouping, key: string): nat {
    if t == [] then 0
    else CountIn(t[..|t| - 1], selected, group, key)
         + if selected(t[|t| - 1]) && group(t[|t| - 1]) == key then 1 else 0
  }

  function SumOver(t: Table, selected: Selection, group: Grouping, keys: seq<string>): nat {
    if keys == [] then 0
    else SumOver(t, selected, group, keys[..|keys| - 1]) + CountIn(t, selected, group, keys[|keys| - 1])
  }

  ghost predicate NoRepeats(keys: seq<string>) {
    forall i, j :: 0 <= i < j < |keys| ==> keys[i] != keys[j]
  }

  /** One more row adds one to exactly the group it belongs to. */
  lemma {:induction false} RowInOneGroup(t: Table, selected: Selection, group: Grouping, keys: seq<string>)
    requires t != [] && NoRepeats(keys)
    ensures SumOver(t, selected, group, keys) == SumOver(t[..|t| - 1], selected, group, keys)
      + if selected(t[|t| - 1]) && group(t[|t| - 1]) in keys then 1 else 0
  {
    if keys != [] {
      var (rest, last) := (keys[..|keys| - 1], keys[|keys| - 1]);
      RowInOneGroup(t, selected, group, rest);
      assert keys == rest + [last];
      assert last !in rest;
    }
  }

  lemma {:induction false} EmptyTable(selected: Selection, group: Grouping, keys: seq<string>)
    ensures SumOver([], selected, group, keys) == 0
  {
    if keys != [] {
      EmptyTable(selected, group, keys[..|keys| - 1]);
    }
  }

  /** Grouped counts conserve the total, if the groups cover every selected row. */
  lemma {:induction false} GroupsConserve(t: Table, selected: Selection, group: Grouping, keys: seq<string>)
    requires NoRepeats(keys)
    requires forall i :: 0 <= i < |t| && selected(t[i]) ==> group(t[i]) in keys
    ensures SumOver(t, selected, group, keys) == Count(t, selected)
  {
    if t == [] {
      EmptyTable(selected, group, keys);
    } else {
      RowInOneGroup(t, selected, group, keys);
      GroupsConserve(t[..|t| - 1], selected, group, keys);
    }
  }

  lemma {:induction false} NobodyInGroup(t: Table, selected: Selection, group: Grouping, key: string)
    requires forall i :: 0 <= i < |t| && selected(t[i]) ==> group(t[i]) != key
    ensures CountIn(t, selected, group, key) == 0
  {
    if t != [] {
      NobodyInGroup(t[..|t| - 1], selected, group, key);
    }
  }

  // ---------------------------------------------------------------- the queries

  /** Rows created in the window. */
  function Created(r: Range): Selection {
    (e: Email) => InRange(e.createdAt, r)
  }

  /** Rows created in the window that have this status now. */
  function CreatedWith(r: Range, status: Status): Selection {
    (e: Email) => InRange(e.createdAt, r) && e.status == status
  }

  /** substr(created_at,1,10) */
  function Day(e: Email): string {
    if |e.createdAt| < 10 then e.createdAt else e.createdAt[..10]
  }

  datatype DayCount = DayCount(date: string, sent: nat, failed: nat)

  datatype Summary = Summary(sent: nat, failed: nat, queued: nat, canceled: nat, total: nat)

  function Groups(t: Table, selected: Selection, group: Grouping): set<string> {
    set i | 0 <= i < |t| && selected(t[i]) :: group(t[i])
  }

  /** DailyVolume: one row per day that has emails, in order. */
  ghost function DailyVolume(t: Table, r: Range): seq<DayCount> {
    var days := SortedKeys(Groups(t, Created(r), Day));
    seq(|days|, i requires 0 <= i < |days| => CountsOf(t, r, days[i]))
  }

  function CountsOf(t: Table, r: Range, date: string): DayCount {
    DayCount(date, CountIn(t, CreatedWith(r, Sent), Day, date), CountIn(t, CreatedWith(r, Failed), Day, date))
  }

  /** SummaryStats: `queued` counts queued and sending. */
  function SummaryStats(t: Table, r: Range): Summary {
    Summary(Count(t, CreatedWith(r, Sent)), Count(t, CreatedWith(r, Failed)),
            Count(t, CreatedWith(r, Queued)) + Count(t, CreatedWith(r, Sending)),
            Count(t, CreatedWith(r, Canceled)), Count(t, Created(r)))
  }

  /** The name of the sending domain; the foreign key makes it defined for every row. */
  function DomainName(domains: map<nat, string>): Grouping {
    (e: Email) => if e.domainId in domains then domains[e.domainId] else ""
  }

  /** DomainVolume: one row per domain that has emails, by name. */
  ghost function DomainVolume(t: Table, domains: map<nat, string>, r: Range): seq<MonthlyReports.DomainStats> {
    var names := SortedKeys(Groups(t, Created(r), DomainName(domains)));
    seq(|names|, i requires 0 <= i < |names| =>
      MonthlyReports.DomainStats(names[i], CountIn(t, CreatedWith(r, Sent), DomainName(domains), names[i]),
                                 CountIn(t, CreatedWith(r, Failed), DomainName(domains), names[i])))
  }

  /** Sent, failed, queued and canceled add up to the total, in every table. */
  lemma {:induction false} SummaryAddsUp(t: Table, r: Range)
    ensures var s := SummaryStats(t, r); s.sent + s.failed + s.queued + s.canceled == s.total
  {
    if t != [] {
      hide InRange;
      SummaryAddsUp(t[..|t| - 1], r);
    }
  }

  function Selected(t: Table, selected: Selection): set<nat> {
    set i: nat | i < |t| && selected(t[i])
  }

  lemma {:induction false} CountSays(t: Table, selected: Selection)
    ensures Count(t, selected) == |Selected(t, selected)|
  {
    if t != [] {
      var (n, rest) := (|t| - 1, t[..|t| - 1]);
      CountSays(rest, selected);
      if selected(t[n]) {
        assert Selected(t, selected) == Selected(rest, selected) + {n};
      } else {
        assert Selected(t, selected) == Selected(rest, selected);
      }
    }
  }

  function InGroup(t: Table, selected: Selection, group: Grouping, key: string): set<nat> {
    set i: nat | i < |t| && selected(t[i]) && group(t[i]) == key
  }

  lemma {:induction false} CountInSays(t: Table, selected: Selection, group: Grouping, key: string)
    ensures CountIn(t, selected, group, key) == |InGroup(t, selected, group, key)|
  {
    var both := (e: Email) => selected(e) && group(e) == key;
    CountInIsCount(t, selected, group, key);
    CountSays(t, both);
    assert Selected(t, both) == InGroup(t, selected, group, key);
  }

  lemma {:induction false} CountInIsCount(t: Table, selected: Selection, group: Grouping, key: string)
    ensures CountIn(t, selected, group, key) == Count(t, (e: Email) => selected(e) && group(e) == key)
  {
    if t != [] {
      CountInIsCount(t[..|t| - 1], selected, group, key);
    }
  }

  /** The emails created in the window, the lower end included and the upper not. */
  function In(t: Table, r: Range): set<nat> {
    set i: nat | i < |t| && Leq(r.from, t[i].createdAt) && Less(t[i].createdAt, r.to)
  }

  function Having(t: Table, ids: set<nat>, status: Status): set<nat> {
    set i | i in ids && i < |t| && t[i].status == status
  }

  /** What each number of the summary counts. */
  lemma SummaryCounts(t: Table, r: Range)
    ensures var s := SummaryStats(t, r);
      && s.sent == |Having(t, In(t, r), Sent)|
      && s.failed == |Having(t, In(t, r), Failed)|
      && s.queued == |Having(t, In(t, r), Queued)| + |Having(t, In(t, r), Sending)|
      && s.canceled == |Having(t, In(t, r), Canceled)|
      && s.total == |In(t, r)|
  {
    forall status ensures Count(t, CreatedWith(r, status)) == |Having(t, In(t, r), status)| {
      CountSays(t, CreatedWith(r, status));
      assert Selected(t, CreatedWith(r, status)) == Having(t, In(t, r), status);
    }
    CountSays(t, Created(r));
    assert Selected(t, Created(r)) == In(t, r);
  }

  /** Canceling a queued email of the window moves one from queued to canceled. */
  lemma CancelMovesOne(t: Table, r: Range, id: nat)
    requires id in In(t, r) && t[id].status == Queued
    ensures var (s, s') := (SummaryStats(t, r), SummaryStats(Cancelled(t, id), r));
      s.queued > 0 && s' == s.(queued := s.queued - 1, canceled := s.canceled + 1)
  {
    hide Leq, Less, SummaryStats;
    var t' := Cancelled(t, id);
    assert In(t', r) == In(t, r);
    CancelMoves(t, In(t, r), id);
    SummaryCounts(t, r);
    SummaryCounts(t', r);
  }

  lemma CancelMoves(t: Table, ids: set<nat>, id: nat)
    requires id in ids && id < |t| && t[id].status == Queued
    ensures var t' := Cancelled(t, id);
      && |Having(t, ids, Queued)| == |Having(t', ids, Queued)| + 1
      && |Having(t', ids, Canceled)| == |Having(t, ids, Canceled)| + 1
      && (forall status | status != Queued && status != Canceled :: Having(t', ids, status) == Having(t, ids, status))
  {
    var t' := Cancelled(t, id);
    assert t' == t[id := t[id].(status := Canceled)];
    assert Having(t, ids, Queued) == Having(t', ids, Queued) + {id};
    assert Having(t', ids, Canceled) == Having(t, ids, Canceled) + {id};
  }

  lemma SortedDistinct(keys: seq<string>)
    requires Sorted(keys)
    ensures NoRepeats(keys)
  {
    forall i, j | 0 <= i < j < |keys| ensures keys[i] != keys[j] {
      LessIrreflexive(keys[i]);
    }
  }

  /** The grouped queries give their rows in order: the days by date, the domains by name. */
  lemma RowsInOrder(t: Table, domains: map<nat, string>, r: Range, i: nat, j: nat)
    requires i < j
    ensures j < |DailyVolume(t, r)| ==> Less(DailyVolume(t, r)[i].date, DailyVolume(t, r)[j].date)
    ensures j < |DomainVolume(t, domains, r)| ==> Less(DomainVolume(t, domains, r)[i].name, DomainVolume(t, domains, r)[j].name)
  {
    hide InRange, Less;
  }

  // ---------------------------------------------------------------- sums over the result rows

  function SumSent(s: seq<MonthlyReports.DomainStats>): nat {
    if s == [] then 0 else SumSent(s[..|s| - 1]) + s[|s| - 1].sent
  }

  function SumFailed(s: seq<MonthlyReports.DomainStats>): nat {
    if s == [] then 0 else SumFailed(s[..|s| - 1]) + s[|s| - 1].failed
  }

  function DaysSent(s: seq<DayCount>): nat {
    if s == [] then 0 else DaysSent(s[..|s| - 1]) + s[|s| - 1].sent
  }

  function DaysFailed(s: seq<DayCount>): nat {
    if s == [] then 0 else DaysFailed(s[..|s| - 1]) + s[|s| - 1].failed
  }

  lemma {:induction false} DomainSums(t: Table, domains: map<nat, string>, r: Range, names: seq<string>, s: seq<MonthlyReports.DomainStats>)
    requires |s| == |names|
    requires forall i :: 0 <= i < |s| ==>
      && s[i].sent == CountIn(t, CreatedWith(r, Sent), DomainName(domains), names[i])
      && s[i].failed == CountIn(t, CreatedWith(r, Failed), DomainName(domains), names[i])
    ensures SumSent(s) == SumOver(t, CreatedWith(r, Sent), DomainName(domains), names)
    ensures SumFailed(s) == SumOver(t, CreatedWith(r, Failed), DomainName(domains), names)
  {
    if s != [] {
      DomainSums(t, domains, r, names[..|names| - 1], s[..|s| - 1]);
    }
  }

  /** The per-domain counts add up to the summary of the same window, and every domain appears once. */
  lemma DomainsConserve(t: Table, domains: map<nat, string>, r: Range)
    ensures SumSent(DomainVolume(t, domains, r)) == SummaryStats(t, r).sent
    ensures SumFailed(DomainVolume(t, domains, r)) == SummaryStats(t, r).failed
    ensures MonthlyReports.NamesDistinct(DomainVolume(t, domains, r))
  {
    hide InRange;
    var names := SortedKeys(Groups(t, Created(r), DomainName(domains)));
    SortedDistinct(names);
    DomainSums(t, domains, r, names, DomainVolume(t, domains, r));
    GroupsConserve(t, CreatedWith(r, Sent), DomainName(domains), names);
    GroupsConserve(t, CreatedWith(r, Failed), DomainName(domains), names);
  }

  // ---------------------------------------------------------------- the dashboard series

  /** The window of `days` whole days from day `start` on. */
  function DayWindow(start: nat, days: nat): Range {
    Range(FmtSeconds(start * DAY), FmtSeconds((start + days) * DAY))
  }

  predicate InCalendar(start: nat, days: nat) {
    DateOf(start + days).month < END_MONTH
  }

  /** A stamp lies in the window exactly if its first ten characters are the date of one of its
      days. The email list's custom window, inclusive at both ends, is such a window. */
  lemma WindowIsDays(start: nat, days: nat, s: nat)
    requires InCalendar(start, days) && FourDigitYear(s)
    ensures InRange(FmtSeconds(s), DayWindow(start, days)) <==> start <= s / DAY < start + days
    ensures |FmtSeconds(s)| == 20 && FmtSeconds(s)[..10] == DateText(s / DAY)
  {
    hide FmtSeconds, InRange, DateText;
    WholeDay(start);
    WholeDay(start + days);
    NoLaterMonth(start, start + days);
    RangeOfSeconds(start * DAY, (start + days) * DAY, s);
    DayBounds(start, s);
    DayBounds(start + days, s);
    FmtOrder(s, s);
    DatePrefix(s);
  }

  lemma WholeDay(day: nat)
    ensures day * DAY / DAY == day
  {
  }

  lemma DayBounds(day: nat, s: nat)
    ensures day * DAY <= s <==> day <= s / DAY
  {
  }

  lemma DatePrefix(s: nat)
    requires FourDigitYear(s)
    ensures |FmtSeconds(s)| >= 10 && FmtSeconds(s)[..10] == DateText(s / DAY)
  {
    hide DateText, ClockText;
    DateTextOrder(s / DAY, s / DAY);
  }

  /** The dates of the window. */
  function Dates(start: nat, days: nat): seq<string> {
    seq(days, i requires 0 <= i < days => DateText(start + i))
  }

  lemma DatesDistinct(start: nat, days: nat)
    requires InCalendar(start, days)
    ensures NoRepeats(Dates(start, days))
  {
    hide DateText;
    var dates := Dates(start, days);
    forall i, j | 0 <= i < j < days ensures dates[i] != dates[j] {
      NoLaterMonth(start + i, start + days);
      NoLaterMonth(start + j, start + days);
      DateTextOrder(start + i, start + j);
    }
  }

  function LookupDay(daily: seq<DayCount>, date: string): DayCount {
    if daily == [] then DayCount(date, 0, 0)
    else if daily[|daily| - 1].date == date then daily[|daily| - 1]
    else LookupDay(daily[..|daily| - 1], date)
  }

  /** The gap-filled series: one entry for each of `days` consecutive dates. */
  method FillGaps(daily: seq<DayCount>, start: nat, days: nat) returns (series: seq<DayCount>)
    ensures |series| == days
    ensures forall i :: 0 <= i < days ==> series[i] == LookupDay(daily, DateText(start + i))
    ensures forall i :: 0 <= i < days ==> series[i].date == DateText(start + i)
  {
    hide DateText;
    var byDay: map<string, DayCount> := map[];
    for i := 0 to |daily|
      invariant forall d :: d in byDay ==> byDay[d] == LookupDay(daily[..i], d) && byDay[d].date == d
      invariant forall d :: d !in byDay ==> LookupDay(daily[..i], d) == DayCount(d, 0, 0)
    {
      assert daily[..i + 1][..i] == daily[..i];
      byDay := byDay[daily[i].date := daily[i]];
    }
    assert daily[..|daily|] == daily;
    series := [];
    for i := 0 to days
      invariant |series| == i
      invariant forall k :: 0 <= k < i ==>
        series[k] == LookupDay(daily, DateText(start + k)) && series[k].date == DateText(start + k)
    {
      var date := DateText(start + i);
      series := series + [if date in byDay then byDay[date] else DayCount(date, 0, 0)];
    }
  }

  /** The counts of a date in the query result, 0 if the date has no row. */
  lemma {:induction false} LookupCounts(t: Table, r: Range, days: seq<string>, daily: seq<DayCount>, date: string)
    requires |daily| == |days| && forall i :: 0 <= i < |days| ==> daily[i] == CountsOf(t, r, days[i])
    ensures LookupDay(daily, date) == if date in days then CountsOf(t, r, date) else DayCount(date, 0, 0)
  {
    if days != [] {
      var rest := days[..|days| - 1];
      LookupCounts(t, r, rest, daily[..|days| - 1], date);
      assert days == rest + [days[|days| - 1]];
    }
  }

  lemma DayCounts(t: Table, r: Range, date: string)
    ensures LookupDay(DailyVolume(t, r), date) == CountsOf(t, r, date)
  {
    hide InRange, Day;
    var days := SortedKeys(Groups(t, Created(r), Day));
    LookupCounts(t, r, days, DailyVolume(t, r), date);
    if date !in days {
      NobodyInGroup(t, CreatedWith(r, Sent), Day, date);
      NobodyInGroup(t, CreatedWith(r, Failed), Day, date);
    }
  }

  lemma {:induction false} SeriesSums(t: Table, r: Range, dates: seq<string>, series: seq<DayCount>)
    requires |series| == |dates| && forall i :: 0 <= i < |dates| ==>
      && series[i].sent == CountIn(t, CreatedWith(r, Sent), Day, dates[i])
      && series[i].failed == CountIn(t, CreatedWith(r, Failed), Day, dates[i])
    ensures DaysSent(series) == SumOver(t, CreatedWith(r, Sent), Day, dates)
    ensures DaysFailed(series) == SumOver(t, CreatedWith(r, Failed), Day, dates)
  {
    if series != [] {
      SeriesSums(t, r, dates[..|dates| - 1], series[..|series| - 1]);
    }
  }

  ghost predicate Stamped(t: Table) {
    forall i :: 0 <= i < |t| ==> IsStamp(t[i].createdAt)
  }

  /** The writers of the table stamp each row with the current time. */
  ghost predicate StampsRow(l: P.Label) {
    l.Enqueue? ==> l.e.createdAt == "" && IsStamp(l.at)
  }

  lemma StampedStep(c: P.Config, s: P.State, l: P.Label)
    requires Stamped(s.table) && P.Enabled(c, s, l) && StampsRow(l)
    ensures Stamped(P.Apply(c, s, l).table)
  {
    hide Leq, P.AcceptedInFlight, FmtTime, IsStamp;
    if l.Claim? {
      P.ClaimInRange(s.table, l.ids, P.Batch(c), FmtTime(s.now));
    }
  }

  /** Every table that the delivery protocol reaches has a well-formed stamp in each row. */
  lemma {:induction false} StampedRun(c: P.Config, s: P.State, ls: seq<P.Label>)
    requires Stamped(s.table) && P.Runs(c, s, ls)
    requires forall k :: 0 <= k < |ls| ==> StampsRow(ls[k])
    ensures Stamped(P.Exec(c, s, ls).table)
    decreases |ls|
  {
    if ls != [] {
      assert StampsRow(ls[0]);
      StampedStep(c, s, ls[0]);
      hide P.Enabled, P.Apply, Stamped, StampsRow;
      StampedRun(c, P.Apply(c, s, ls[0]), ls[1..]);
    }
  }

  /** Every row of the window falls on one of its dates. */
  lemma RowsFallOnDates(t: Table, start: nat, days: nat, i: nat)
    requires Stamped(t) && InCalendar(start, days) && i < |t| && InRange(t[i].createdAt, DayWindow(start, days))
    ensures Day(t[i]) in Dates(start, days)
  {
    hide InRange, DayWindow, FmtSeconds, DateText;
    var s: nat :| FourDigitYear(s) && t[i].createdAt == FmtSeconds(s);
    WindowIsDays(start, days, s);
    assert Dates(start, days)[s / DAY - start] == DateText(s / DAY);
  }

  /** `?range=7` and `?range=90` choose the number of days; anything else means 30. */
  function DashboardDays(range: string): (days: nat)
    ensures 7 <= days <= 90
  {
    if range == "7" then 7 else if range == "90" then 90 else 30
  }

  /** The emails with this date in their stamp and this status. */
  function OnDate(t: Table, date: string, status: Status): set<nat> {
    set i: nat | i < |t| && date <= t[i].createdAt && t[i].status == status
  }

  lemma DateInWindow(t: Table, start: nat, days: nat, day: nat, i: nat)
    requires Stamped(t) && InCalendar(start, days) && i < |t| && start <= day < start + days
    ensures InRange(t[i].createdAt, DayWindow(start, days)) && Day(t[i]) == DateText(day) <==> DateText(day) <= t[i].createdAt
  {
    hide InRange, DayWindow, FmtSeconds, DateText;
    assert IsStamp(t[i].createdAt);
    var s: nat :| FourDigitYear(s) && t[i].createdAt == FmtSeconds(s);
    WindowIsDays(start, days, s);
    NoLaterMonth(day, start + days);
    DateTextOrder(day, s / DAY);
  }

  /** The counts of a date in the window are those of all emails with that date. */
  lemma CountsOfDate(t: Table, start: nat, days: nat, day: nat)
    requires Stamped(t) && InCalendar(start, days) && start <= day < start + days
    ensures var counts := CountsOf(t, DayWindow(start, days), DateText(day));
      counts.sent == |OnDate(t, DateText(day), Sent)| && counts.failed == |OnDate(t, DateText(day), Failed)|
  {
    hide InRange, DayWindow, DateText, Day, Stamped;
    var (r, date) := (DayWindow(start, days), DateText(day));
    forall i: nat | i < |t| ensures InRange(t[i].createdAt, r) && Day(t[i]) == date <==> date <= t[i].createdAt {
      DateInWindow(t, start, days, day, i);
    }
    forall status ensures CountIn(t, CreatedWith(r, status), Day, date) == |OnDate(t, date, status)| {
      CountInSays(t, CreatedWith(r, status), Day, date);
      assert OnDate(t, date, status) == InGroup(t, CreatedWith(r, status), Day, date);
    }
  }

  /** The dashboard, from one state of the table: exactly `days` consecutive dates ending today, each
      with that date's sent and failed emails; the bars of the chart add up to the headline numbers
      and to the per-domain numbers, and the headline numbers to the total. */
  method Dashboard(t: Table, ghost domains: map<nat, string>, range: string, now: Instant, daily: seq<DayCount>)
    returns (days: nat, summary: Summary, series: seq<DayCount>)
    requires Stamped(t) && 90 <= Today(now) && InCalendar(Today(now), 1)
    requires daily == DailyVolume(t, LastDays(now, DashboardDays(range)))
    ensures |series| == days == DashboardDays(range)
    ensures forall i :: 0 <= i < days ==> series[i].date == DateText(Today(now) + 1 - days + i)
    ensures days == if range == "7" then 7 else if range == "90" then 90 else 30
    ensures forall i :: 0 <= i < days ==>
      series[i].sent == |OnDate(t, series[i].date, Sent)| && series[i].failed == |OnDate(t, series[i].date, Failed)|
    ensures summary == SummaryStats(t, LastDays(now, days))
    ensures DaysSent(series) == summary.sent == SumSent(DomainVolume(t, domains, LastDays(now, days)))
    ensures DaysFailed(series) == summary.failed == SumFailed(DomainVolume(t, domains, LastDays(now, days)))
    ensures summary.sent + summary.failed + summary.queued + summary.canceled == summary.total
  {
    hide DateText, Day, DailyVolume, DomainVolume, LookupDay, InRange, DayWindow, CountsOf;
    days := DashboardDays(range);
    var start := Today(now) + 1 - days;
    summary := SummaryStats(t, DayWindow(start, days));
    SummaryAddsUp(t, DayWindow(start, days));
    series := FillGaps(daily, start, days);
    DashboardConserves(t, domains, start, days, series);
    forall i | 0 <= i < days
      ensures series[i].sent == |OnDate(t, series[i].date, Sent)| && series[i].failed == |OnDate(t, series[i].date, Failed)|
    {
      DayCounts(t, DayWindow(start, days), series[i].date);
      CountsOfDate(t, start, days, start + i);
    }
  }

  function Today(now: Instant): nat {
    Seconds(now) / DAY
  }

  /** The window of the last `days` calendar days, today included. */
  function LastDays(now: Instant, days: nat): Range
    requires days <= Today(now) + 1
  {
    DayWindow(Today(now) + 1 - days, days)
  }

  /** Dashboard conservation: the gap-filled series covers `days` consecutive dates, its sums equal
      the summary and the per-domain sums of the same window, and the summary adds up. */
  lemma DashboardConserves(t: Table, domains: map<nat, string>, start: nat, days: nat, series: seq<DayCount>)
    requires Stamped(t) && InCalendar(start, days)
    requires |series| == days
    requires forall i :: 0 <= i < days ==>
      series[i] == LookupDay(DailyVolume(t, DayWindow(start, days)), DateText(start + i))
    ensures var r := DayWindow(start, days);
      && DaysSent(series) == SummaryStats(t, r).sent == SumSent(DomainVolume(t, domains, r))
      && DaysFailed(series) == SummaryStats(t, r).failed == SumFailed(DomainVolume(t, domains, r))
  {
    hide InRange, DayWindow, DateText, Day, DailyVolume, DomainVolume, LookupDay, Stamped;
    var (r, dates) := (DayWindow(start, days), Dates(start, days));
    DomainsConserve(t, domains, r);
    forall i | 0 <= i < days
      ensures series[i].sent == CountIn(t, CreatedWith(r, Sent), Day, dates[i])
      ensures series[i].failed == CountIn(t, CreatedWith(r, Failed), Day, dates[i])
    {
      DayCounts(t, r, DateText(start + i));
    }
    SeriesSums(t, r, dates, series);
    DatesDistinct(start, days);
    forall i | 0 <= i < |t| && InRange(t[i].createdAt, r)
      ensures Day(t[i]) in dates
    {
      RowsFallOnDates(t, start, days, i);
    }
    GroupsConserve(t, CreatedWith(r, Sent), Day, dates);
    GroupsConserve(t, CreatedWith(r, Failed), Day, dates);
  }
}
