/** The monthly statistics report over a series of ticks (internal/notify/notifier.go, StatsTick). */
module MonthlyReports {
  import opened Text
  import opened Calendar
  import opened TimeText
  import opened MonthFilter

  function MonthOf(now: Instant): nat {
    DateOf(Seconds(now) / DAY).month
  }

  /** time.Date with a day beyond the end of its month rolls over into the next one. */
  function RolledOver(month: nat, day: nat): Date
    requires day >= 1
  {
    DateOf(DaysBefore(month) + day - 1)
  }

  lemma RollsOverExactly(month: nat, day: nat)
    requires day >= 1
    ensures day <= MonthLen(month) ==> RolledOver(month, day) == Date(month, day)
    ensures day > MonthLen(month) ==> RolledOver(month, day).month > month
  {
    var n := DaysBefore(month) + day - 1;
    DateRoundTrip(n, Date(month, day));
    if day > MonthLen(month) {
      NoEarlierMonth(n, month + 1);
    }
  }

  lemma NoEarlierMonth(n: nat, month: nat)
    requires DaysBefore(month) <= n
    ensures DateOf(n).month >= month
  {
    DateRoundTrip(n, Date(month, 1));
    DateRoundTrip(DaysBefore(month), Date(month, 1));
    NoLaterMonth(DaysBefore(month), n);
  }

  /** The month before the tick's, as the code computes it: from the first of the month. */
  function PreviousMonth(now: Instant): nat
    requires MonthOf(now) >= 1
  {
    RolledOver(MonthOf(now) - 1, 1).month
  }

  /** It is the calendar predecessor on every day of the month. */
  lemma PreviousIsPredecessor(now: Instant)
    requires MonthOf(now) >= 1
    ensures PreviousMonth(now) == MonthOf(now) - 1
  {
    hide MonthOf, RolledOver;
    RollsOverExactly(MonthOf(now) - 1, 1);
  }

  /** The month it is compared with, computed in the same way. */
  function ComparedMonth(now: Instant): nat
    requires MonthOf(now) >= 2
  {
    RolledOver(MonthOf(now) - 2, 1).month
  }

  lemma ComparedIsTheOneBefore(now: Instant)
    requires MonthOf(now) >= 2
    ensures ComparedMonth(now) + 1 == PreviousMonth(now)
  {
    hide MonthOf, RolledOver;
    RollsOverExactly(MonthOf(now) - 2, 1);
    RollsOverExactly(MonthOf(now) - 1, 1);
  }

  /** Subtracting a month from the day itself would be right only on the days the previous month
      also has. */
  lemma NaiveSubtractionExactly(d: Date)
    requires Valid(d) && d.month >= 1
    ensures RolledOver(d.month - 1, d.day).month == d.month - 1 <==> d.day <= MonthLen(d.month - 1)
  {
    hide RolledOver;
    RollsOverExactly(d.month - 1, d.day);
  }

  // ---------------------------------------------------------------- the state machine

  /** One tick: its time, and whether the state read, the enqueue and the state write succeed. */
  datatype Tick = Tick(now: Instant, readOk: bool, sent: bool, writeOk: bool)

  /** A report, by the month of the tick that sent it and the month it is about. */
  datatype Report = Report(at: nat, about: nat)

  datatype State = State(last: string, reports: seq<Report>)

  const FRESH := State("", [])

  predicate Usable(t: Tick) {
    1 <= MonthOf(t.now) < END_MONTH
  }

  function AfterTick(s: State, t: Tick): State
    requires Usable(t)
  {
    var current := MonthText(MonthOf(t.now));
    var last := if t.readOk then s.last else "";
    if last == "" then (if t.writeOk then s.(last := current) else s)
    else if last == current || !t.sent then s
    else State(if t.writeOk then current else s.last, s.reports + [Report(MonthOf(t.now), PreviousMonth(t.now))])
  }

  function AfterTicks(s: State, ts: seq<Tick>): State
    requires forall t :: t in ts ==> Usable(t)
  {
    if ts == [] then s
    else
      assert forall t :: t in ts[..|ts| - 1] ==> t in ts;
      AfterTick(AfterTicks(s, ts[..|ts| - 1]), ts[|ts| - 1])
  }

  /** Clocks do not run backwards, and the state can be written. Whether it can be read and whether a
      report can be enqueued is left open. */
  ghost predicate Steady(ts: seq<Tick>) {
    && (forall i, j :: 0 <= i < j < |ts| ==> ts[i].now <= ts[j].now)
    && (forall i :: 0 <= i < |ts| ==> Usable(ts[i]) && ts[i].writeOk)
  }

  function MonthAt(ts: seq<Tick>, i: nat): nat
    requires i < |ts|
  {
    MonthOf(ts[i].now)
  }

  /** A tick that leaves its own month in the state: a failed read looks like a fresh install. */
  predicate Marks(t: Tick) {
    t.sent || !t.readOk
  }

  /** The stored month: that of the last tick that marked its own. */
  function StoredMonth(ts: seq<Tick>): nat
    requires ts != []
  {
    if |ts| == 1 || Marks(ts[|ts| - 1]) then MonthAt(ts, |ts| - 1) else StoredMonth(ts[..|ts| - 1])
  }

  lemma LaterMonth(a: Instant, b: Instant)
    requires a <= b
    ensures MonthOf(a) <= MonthOf(b)
  {
    NoLaterMonth(Seconds(a) / DAY, Seconds(b) / DAY);
  }

  lemma MonthsInOrder(ts: seq<Tick>, i: nat, j: nat)
    requires Steady(ts) && i <= j < |ts|
    ensures MonthAt(ts, i) <= MonthAt(ts, j)
  {
    LaterMonth(ts[i].now, ts[j].now);
  }

  lemma SteadyPrefix(ts: seq<Tick>)
    requires Steady(ts) && ts != []
    ensures Steady(ts[..|ts| - 1]) && Usable(ts[|ts| - 1]) && ts[|ts| - 1].writeOk
    ensures forall t :: t in ts ==> Usable(t)
    ensures forall i :: 0 <= i < |ts| - 1 ==> MonthAt(ts[..|ts| - 1], i) == MonthAt(ts, i)
  {
    hide MonthOf;
  }

  /** The stored month lies between the first and the latest tick's, no earlier than any marked one,
      and is the first month or was marked by a tick. */
  lemma {:induction false} StoredMonthSays(ts: seq<Tick>)
    requires Steady(ts) && ts != []
    ensures MonthAt(ts, 0) <= StoredMonth(ts) <= MonthAt(ts, |ts| - 1)
    ensures forall j :: 0 <= j < |ts| && Marks(ts[j]) ==> MonthAt(ts, j) <= StoredMonth(ts)
    ensures StoredMonth(ts) == MonthAt(ts, 0)
         || exists j :: 0 <= j < |ts| && Marks(ts[j]) && MonthAt(ts, j) == StoredMonth(ts)
  {
    var n := |ts| - 1;
    forall j | 0 <= j <= n ensures MonthAt(ts, j) <= MonthAt(ts, n) {
      MonthsInOrder(ts, j, n);
    }
    hide MonthOf;
    if n > 0 && !Marks(ts[n]) {
      var rest := ts[..n];
      SteadyPrefix(ts);
      StoredMonthSays(rest);
      assert forall j :: 0 <= j < n ==> rest[j] == ts[j] && MonthAt(rest, j) == MonthAt(ts, j);
    }
  }

  /** The tick after `ts` reports: another month than the stored one has begun. */
  predicate Reports(ts: seq<Tick>, t: Tick) {
    ts != [] && t.readOk && t.sent && StoredMonth(ts) != MonthOf(t.now)
  }

  /** One more tick: the stored month, and the report it sends or does not send. */
  lemma {:induction false} TickSays(ts: seq<Tick>)
    requires Steady(ts) && ts != []
    ensures forall t :: t in ts ==> Usable(t)
    ensures forall t :: t in ts[..|ts| - 1] ==> Usable(t)
    ensures AfterTicks(FRESH, ts).last == MonthText(StoredMonth(ts))
    ensures var (rest, t) := (ts[..|ts| - 1], ts[|ts| - 1]);
      AfterTicks(FRESH, ts).reports == AfterTicks(FRESH, rest).reports
        + if Reports(rest, t) then [Report(MonthOf(t.now), MonthOf(t.now) - 1)] else []
  {
    hide MonthText, MonthOf;
    SteadyPrefix(ts);
    var (rest, t) := (ts[..|ts| - 1], ts[|ts| - 1]);
    PreviousIsPredecessor(t.now);
    if rest == [] {
      assert AfterTicks(FRESH, rest) == FRESH;
    } else {
      TickSays(rest);
      StoredMonthSays(rest);
      assert MonthAt(rest, |rest| - 1) == MonthAt(ts, |rest| - 1);
      MonthTextOrder(StoredMonth(rest), MonthOf(t.now));
    }
  }

  ghost predicate InOrder(reports: seq<Report>, first: nat, stored: nat) {
    && (forall k :: 0 <= k < |reports| ==> reports[k].about + 1 == reports[k].at)
    && (forall k :: 0 <= k < |reports| ==> first < reports[k].at <= stored)
    && (forall i, k :: 0 <= i < k < |reports| ==> reports[i].at < reports[k].at)
  }

  /** The stored month never goes back, and a report moves it on to its own month. */
  lemma StoredMonthGrows(ts: seq<Tick>)
    requires Steady(ts) && |ts| > 1
    ensures var (rest, t) := (ts[..|ts| - 1], ts[|ts| - 1]);
      && StoredMonth(rest) <= StoredMonth(ts)
      && (Reports(rest, t) ==> StoredMonth(rest) < MonthOf(t.now) == StoredMonth(ts))
  {
    var n := |ts| - 1;
    MonthsInOrder(ts, n - 1, n);
    hide MonthOf;
    SteadyPrefix(ts);
    StoredMonthSays(ts[..n]);
    assert MonthAt(ts[..n], n - 1) == MonthAt(ts, n - 1);
  }

  lemma {:induction false} TicksInOrder(ts: seq<Tick>)
    requires Steady(ts) && ts != []
    ensures forall t :: t in ts ==> Usable(t)
    ensures InOrder(AfterTicks(FRESH, ts).reports, MonthAt(ts, 0), StoredMonth(ts))
  {
    hide MonthOf, StoredMonth, AfterTick, Marks;
    TickSays(ts);
    SteadyPrefix(ts);
    var rest := ts[..|ts| - 1];
    if rest == [] {
      assert AfterTicks(FRESH, rest) == FRESH;
    } else {
      TicksInOrder(rest);
      StoredMonthGrows(ts);
      StoredMonthSays(rest);
      assert MonthAt(rest, 0) == MonthAt(ts, 0);
    }
  }

  /** Over every steady series of ticks from a fresh install: reports are about strictly increasing
      months, each about the calendar month before the one it is sent in, at most one is sent per
      month, and none is sent in the install month or about a month before it. */
  lemma {:induction false} ReportsInOrder(ts: seq<Tick>, i: nat, k: nat)
    requires Steady(ts) && ts != []
    ensures forall t :: t in ts ==> Usable(t)
    ensures var r := AfterTicks(FRESH, ts).reports;
      && (k < |r| ==> r[k].about + 1 == r[k].at && r[k].at > MonthOf(ts[0].now) && r[k].about >= MonthOf(ts[0].now))
      && (i < k < |r| ==> r[i].about < r[k].about && r[i].at < r[k].at)
  {
    TicksInOrder(ts);
  }

  /** A tick of month `m` could send a report, and no earlier tick of the month failed to read. */
  ghost predicate CouldReport(ts: seq<Tick>, i: nat, m: nat) {
    && i < |ts| && MonthAt(ts, i) == m && ts[i].sent && ts[i].readOk
    && forall j :: 0 <= j < i && MonthAt(ts, j) == m ==> ts[j].readOk
  }

  ghost predicate ReportedIn(ts: seq<Tick>, m: nat)
    requires forall t :: t in ts ==> Usable(t)
  {
    exists k :: 0 <= k < |AfterTicks(FRESH, ts).reports| && AfterTicks(FRESH, ts).reports[k].at == m
  }

  lemma CouldReportPrefix(ts: seq<Tick>, i: nat, m: nat)
    requires ts != [] && i < |ts| - 1
    ensures CouldReport(ts[..|ts| - 1], i, m) <==> CouldReport(ts, i, m)
  {
    hide MonthOf;
    var rest := ts[..|ts| - 1];
    assert forall j :: 0 <= j <= i ==> rest[j] == ts[j] && MonthAt(rest, j) == MonthAt(ts, j);
  }

  /** If the new tick could report in its month, the month is reported by now: either another month
      was stored, or an earlier tick of the month reported. */
  lemma NewTickReports(ts: seq<Tick>) returns (earlier: nat)
    requires Steady(ts) && |ts| > 1 && MonthAt(ts, |ts| - 1) > MonthAt(ts, 0) && CouldReport(ts, |ts| - 1, MonthAt(ts, |ts| - 1))
    ensures Reports(ts[..|ts| - 1], ts[|ts| - 1]) || CouldReport(ts[..|ts| - 1], earlier, MonthAt(ts, |ts| - 1))
  {
    hide MonthOf;
    var (n, rest) := (|ts| - 1, ts[..|ts| - 1]);
    SteadyPrefix(ts);
    StoredMonthSays(rest);
    earlier := 0;
    if StoredMonth(rest) == MonthAt(ts, n) {
      assert MonthAt(rest, 0) == MonthAt(ts, 0);
      var j :| 0 <= j < |rest| && Marks(rest[j]) && MonthAt(rest, j) == StoredMonth(rest);
      assert rest[j] == ts[j] && MonthAt(ts, j) == MonthAt(ts, n) && ts[j].readOk;
      CouldReportPrefix(ts, j, MonthAt(ts, n));
      earlier := j;
    }
  }

  /** And a tick that reports could: nobody marked its month before. */
  lemma ReportingCould(ts: seq<Tick>)
    requires Steady(ts) && ts != [] && Reports(ts[..|ts| - 1], ts[|ts| - 1])
    ensures MonthAt(ts, |ts| - 1) > MonthAt(ts, 0) && CouldReport(ts, |ts| - 1, MonthAt(ts, |ts| - 1))
  {
    var (n, rest) := (|ts| - 1, ts[..|ts| - 1]);
    SteadyPrefix(ts);
    StoredMonthSays(rest);
    MonthsInOrder(ts, n - 1, n);
    hide MonthOf;
    assert MonthAt(rest, 0) == MonthAt(ts, 0) && MonthAt(rest, n - 1) == MonthAt(ts, n - 1);
    forall j | 0 <= j < n && MonthAt(ts, j) == MonthAt(ts, n) ensures ts[j].readOk {
      assert rest[j] == ts[j] && MonthAt(rest, j) == MonthAt(ts, j);
    }
  }

  lemma {:induction false} ReportedCould(ts: seq<Tick>, m: nat, k: nat) returns (i: nat)
    requires Steady(ts) && ts != [] && forall t :: t in ts ==> Usable(t)
    requires k < |AfterTicks(FRESH, ts).reports| && AfterTicks(FRESH, ts).reports[k].at == m
    ensures m > MonthAt(ts, 0) && CouldReport(ts, i, m)
  {
    hide MonthOf, StoredMonth, AfterTick, CouldReport, AfterTicks;
    TickSays(ts);
    SteadyPrefix(ts);
    var rest := ts[..|ts| - 1];
    var before := AfterTicks(FRESH, rest).reports;
    if k < |before| {
      NoTicks();
      i := ReportedCould(rest, m, k);
      assert MonthAt(rest, 0) == MonthAt(ts, 0);
      CouldInRange(rest, i, m);
      CouldReportPrefix(ts, i, m);
    } else {
      ReportingCould(ts);
      i := |ts| - 1;
    }
  }

  lemma CouldInRange(ts: seq<Tick>, i: nat, m: nat)
    requires CouldReport(ts, i, m)
    ensures i < |ts|
  {
  }

  lemma NoTicks()
    ensures AfterTicks(FRESH, []) == FRESH
  {
  }

  lemma {:induction false} CouldIsReported(ts: seq<Tick>, m: nat, i: nat) returns (k: nat)
    requires Steady(ts) && ts != [] && forall t :: t in ts ==> Usable(t)
    requires m > MonthAt(ts, 0) && CouldReport(ts, i, m)
    ensures k < |AfterTicks(FRESH, ts).reports| && AfterTicks(FRESH, ts).reports[k].at == m
  {
    CouldInRange(ts, i, m);
    assert MonthAt(ts, i) == m;
    hide MonthOf, StoredMonth, AfterTick, CouldReport, AfterTicks, Reports;
    TickSays(ts);
    SteadyPrefix(ts);
    var (n, rest) := (|ts| - 1, ts[..|ts| - 1]);
    assert MonthAt(rest, 0) == MonthAt(ts, 0);
    var e := i;
    if i == n {
      e := NewTickReports(ts);
    } else {
      CouldReportPrefix(ts, i, m);
    }
    if CouldReport(rest, e, m) {
      k := CouldIsReported(rest, m, e);
    } else {
      k := |AfterTicks(FRESH, rest).reports|;
    }
  }

  /** A month is reported on if and only if it is after the install month and some tick in it could
      read the state and enqueue, with no failed read before it in the month. */
  lemma ReportedExactly(ts: seq<Tick>, m: nat)
    requires Steady(ts) && ts != []
    ensures forall t :: t in ts ==> Usable(t)
    ensures ReportedIn(ts, m) <==> m > MonthAt(ts, 0) && exists i :: CouldReport(ts, i, m)
  {
    hide MonthOf, CouldReport, AfterTicks;
    SteadyPrefix(ts);
    if ReportedIn(ts, m) {
      var k :| 0 <= k < |AfterTicks(FRESH, ts).reports| && AfterTicks(FRESH, ts).reports[k].at == m;
      var i := ReportedCould(ts, m, k);
    }
    if m > MonthAt(ts, 0) && exists i :: CouldReport(ts, i, m) {
      var i :| CouldReport(ts, i, m);
      var k := CouldIsReported(ts, m, i);
    }
  }

  /** The incomplete install month itself is reported if and only if a tick of the next month could
      report. */
  lemma InstallMonthReportedExactly(ts: seq<Tick>)
    requires Steady(ts) && ts != []
    ensures forall t :: t in ts ==> Usable(t)
    ensures (exists r :: r in AfterTicks(FRESH, ts).reports && r.about == MonthAt(ts, 0))
       <==> var next := MonthAt(ts, 0) + 1; exists i :: CouldReport(ts, i, next)
  {
    TicksInOrder(ts);
    hide MonthOf, CouldReport;
    var reports := AfterTicks(FRESH, ts).reports;
    ReportedExactly(ts, MonthAt(ts, 0) + 1);
    if r :| r in reports && r.about == MonthAt(ts, 0) {
      var k :| 0 <= k < |reports| && reports[k] == r;
      assert reports[k].at == MonthAt(ts, 0) + 1;
    }
    if ReportedIn(ts, MonthAt(ts, 0) + 1) {
      var k :| 0 <= k < |reports| && reports[k].at == MonthAt(ts, 0) + 1;
      assert reports[k] in reports;
    }
  }

  // ---------------------------------------------------------------- which faults repeat a month

  datatype Flags = Flags(readOk: bool, writeOk: bool)

  /** Ticks with these faults and a clock that does not run backwards. */
  ghost predicate Has(ts: seq<Tick>, flags: seq<Flags>) {
    && |ts| == |flags|
    && (forall i, j :: 0 <= i < j < |ts| ==> ts[i].now <= ts[j].now)
    && (forall i :: 0 <= i < |ts| ==> Usable(ts[i]) && ts[i].readOk == flags[i].readOk && ts[i].writeOk == flags[i].writeOk)
  }

  function StateAt(ts: seq<Tick>, k: nat): State
    requires k <= |ts| && forall i :: 0 <= i < |ts| ==> Usable(ts[i])
  {
    AfterTicks(FRESH, ts[..k])
  }

  /** The k-th tick sends a report. */
  predicate ReportsAt(ts: seq<Tick>, k: nat)
    requires k < |ts| && forall i :: 0 <= i < |ts| ==> Usable(ts[i])
  {
    var last := StateAt(ts, k).last;
    ts[k].readOk && ts[k].sent && last != "" && last != MonthText(MonthAt(ts, k))
  }

  lemma TickAt(ts: seq<Tick>, k: nat)
    requires k < |ts| && forall i :: 0 <= i < |ts| ==> Usable(ts[i])
    ensures StateAt(ts, 0) == FRESH && StateAt(ts, k + 1) == AfterTick(StateAt(ts, k), ts[k])
    ensures StateAt(ts, k + 1).reports == StateAt(ts, k).reports
      + if ReportsAt(ts, k) then [Report(MonthAt(ts, k), MonthAt(ts, k) - 1)] else []
  {
    hide MonthOf, MonthText, PreviousMonth;
    PreviousIsPredecessor(ts[k].now);
    assert ts[..0] == [] && ts[..k + 1][..k] == ts[..k];
  }

  /** No month is reported on twice. */
  ghost predicate OnePerMonth(ts: seq<Tick>)
    requires forall i :: 0 <= i < |ts| ==> Usable(ts[i])
  {
    forall i: nat, j: nat :: i < j < |ts| && ReportsAt(ts, i) && ReportsAt(ts, j) ==> MonthAt(ts, i) != MonthAt(ts, j)
  }

  ghost predicate AlwaysOnePerMonth(flags: seq<Flags>) {
    forall ts :: Has(ts, flags) ==> OnePerMonth(ts)
  }

  /** A report at `i` whose mark is lost, after some stored mark at `k`, and a tick at `j` that can
      read, with no mark stored by a failed read in between. */
  ghost predicate CanRepeat(flags: seq<Flags>, k: nat, i: nat, j: nat) {
    && k < i < j < |flags|
    && flags[k].writeOk && flags[i].readOk && !flags[i].writeOk && flags[j].readOk
    && forall l :: i < l < j ==> flags[l].readOk || !flags[l].writeOk
  }

  lemma {:induction false} MarkWasWritten(ts: seq<Tick>, n: nat) returns (k: nat)
    requires n <= |ts| && (forall i :: 0 <= i < |ts| ==> Usable(ts[i])) && StateAt(ts, n).last != ""
    ensures k < n && ts[k].writeOk
  {
    hide MonthOf, MonthText, AfterTicks;
    k := 0;
    NoTicks();
    assert ts[..0] == [];
    if n > 0 {
      TickAt(ts, n - 1);
      if ts[n - 1].writeOk {
        k := n - 1;
      } else {
        k := MarkWasWritten(ts, n - 1);
      }
    }
  }

  /** A stored mark stays as long as its month lasts. */
  lemma {:induction false} MarkStays(ts: seq<Tick>, m: nat, from: nat, to: nat)
    requires from <= to <= |ts| && (forall i :: 0 <= i < |ts| ==> Usable(ts[i]))
    requires StateAt(ts, from).last == MonthText(m) && forall l :: from <= l < to ==> MonthAt(ts, l) == m
    ensures StateAt(ts, to).last == MonthText(m)
    decreases |ts| - from
  {
    hide MonthOf, MonthText, AfterTicks;
    if from < to {
      TickAt(ts, from);
      assert MonthAt(ts, from) == m;
      MarkStays(ts, m, from + 1, to);
    }
  }

  lemma SameMonthBetween(ts: seq<Tick>, flags: seq<Flags>, i: nat, l: nat, j: nat)
    requires Has(ts, flags) && i <= l <= j < |ts| && MonthAt(ts, i) == MonthAt(ts, j)
    ensures MonthAt(ts, l) == MonthAt(ts, i)
  {
    LaterMonth(ts[i].now, ts[l].now);
    LaterMonth(ts[l].now, ts[j].now);
  }

  /** A stored mark of the month keeps later ticks of the month from reporting. */
  lemma MarkBlocks(ts: seq<Tick>, l: nat, j: nat)
    requires l < j < |ts| && (forall i :: 0 <= i < |ts| ==> Usable(ts[i]))
    requires ts[l].writeOk && (ReportsAt(ts, l) || !ts[l].readOk)
    requires forall x :: l <= x <= j ==> MonthAt(ts, x) == MonthAt(ts, l)
    ensures !ReportsAt(ts, j)
  {
    hide MonthOf, MonthText, AfterTicks;
    TickAt(ts, l);
    MarkStays(ts, MonthAt(ts, l), l + 1, j);
  }

  lemma RepeatNeedsFaults(ts: seq<Tick>, flags: seq<Flags>, i: nat, j: nat) returns (k: nat)
    requires Has(ts, flags) && i < j < |ts| && ReportsAt(ts, i) && ReportsAt(ts, j) && MonthAt(ts, i) == MonthAt(ts, j)
    ensures CanRepeat(flags, k, i, j)
  {
    forall l | i <= l <= j ensures MonthAt(ts, l) == MonthAt(ts, i) {
      SameMonthBetween(ts, flags, i, l, j);
    }
    assert ts[i].readOk && ts[j].readOk && StateAt(ts, i).last != "";
    hide MonthAt, StateAt, ReportsAt;
    k := MarkWasWritten(ts, i);
    forall l | i <= l < j && (l == i || !flags[l].readOk) ensures !flags[l].writeOk {
      if flags[l].writeOk {
        MarkBlocks(ts, l, j);
      }
    }
  }

  /** One month until `i`, the next from then on; only `i` and `j` can enqueue. */
  function RepeatingTicks(flags: seq<Flags>, i: nat, j: nat): seq<Tick> {
    seq(|flags|, l requires 0 <= l < |flags| =>
      Tick(FirstSecond(if l < i then 1 else 2) * NANOS, flags[l].readOk, l == i || l == j, flags[l].writeOk))
  }

  lemma RepeatingMonths(flags: seq<Flags>, i: nat, j: nat)
    ensures Has(RepeatingTicks(flags, i, j), flags)
    ensures forall l :: 0 <= l < |flags| ==> MonthAt(RepeatingTicks(flags, i, j), l) == if l < i then 1 else 2
  {
    FirstSecondInMonth(1);
    FirstSecondInMonth(2);
    assert Seconds(FirstSecond(1) * NANOS) == FirstSecond(1) && Seconds(FirstSecond(2) * NANOS) == FirstSecond(2);
    DaysBeforeMonotone(1, 2);
    hide FirstSecond;
    assert MonthOf(FirstSecond(1) * NANOS) == 1 && MonthOf(FirstSecond(2) * NANOS) == 2;
  }

  lemma NextIsStored(flags: seq<Flags>, k: nat, i: nat, j: nat, l: nat)
    requires CanRepeat(flags, k, i, j) && l < j
    requires forall x :: 0 <= x < |flags| ==> Usable(RepeatingTicks(flags, i, j)[x])
    requires var last := StateAt(RepeatingTicks(flags, i, j), l).last; last == MonthText(1) || (l <= k && last == "")
    ensures var last := StateAt(RepeatingTicks(flags, i, j), l + 1).last; last == MonthText(1) || (l + 1 <= k && last == "")
  {
    var ts := RepeatingTicks(flags, i, j);
    RepeatingMonths(flags, i, j);
    MonthTextOrder(1, 2);
    TickAt(ts, l);
    hide MonthText, AfterTicks, FirstSecond, StateAt, PreviousMonth;
    assert MonthOf(ts[l].now) == MonthAt(ts, l) == if l < i then 1 else 2;
    hide MonthOf;
    assert MonthText(1) != "" by {
      assert |MonthText(1)| == 7;
    }
    if l > i {
      assert !ts[l].sent && (ts[l].readOk || !ts[l].writeOk);
    }
  }

  lemma {:induction false} FirstMonthIsStored(flags: seq<Flags>, k: nat, i: nat, j: nat, l: nat)
    requires CanRepeat(flags, k, i, j) && l <= j
    ensures forall x :: 0 <= x < |flags| ==> Usable(RepeatingTicks(flags, i, j)[x])
    ensures var last := StateAt(RepeatingTicks(flags, i, j), l).last;
      last == MonthText(1) || (l <= k && last == "")
  {
    RepeatingMonths(flags, i, j);
    hide MonthOf, MonthText, AfterTicks, FirstSecond;
    var ts := RepeatingTicks(flags, i, j);
    if l == 0 {
      NoTicks();
      assert ts[..0] == [];
    } else {
      FirstMonthIsStored(flags, k, i, j, l - 1);
      NextIsStored(flags, k, i, j, l - 1);
    }
  }

  lemma FaultsRepeat(flags: seq<Flags>, k: nat, i: nat, j: nat)
    requires CanRepeat(flags, k, i, j)
    ensures Has(RepeatingTicks(flags, i, j), flags) && !OnePerMonth(RepeatingTicks(flags, i, j))
  {
    RepeatingMonths(flags, i, j);
    var ts := RepeatingTicks(flags, i, j);
    FirstMonthIsStored(flags, k, i, j, i);
    FirstMonthIsStored(flags, k, i, j, j);
    MonthTextOrder(1, 2);
    hide MonthOf, MonthText, AfterTicks, FirstSecond;
    assert MonthAt(ts, i) == 2 == MonthAt(ts, j);
    assert |MonthText(1)| == 7;
    assert ReportsAt(ts, i) && ReportsAt(ts, j);
  }

  lemma NoFaultsNoRepeats(ts: seq<Tick>, flags: seq<Flags>)
    requires Has(ts, flags) && !exists k, i, j :: CanRepeat(flags, k, i, j)
    ensures forall i :: 0 <= i < |ts| ==> Usable(ts[i])
    ensures OnePerMonth(ts)
  {
    HasUsable(ts, flags);
    hide CanRepeat, MonthAt, ReportsAt, Has;
    forall i: nat, j: nat | i < j < |ts| && ReportsAt(ts, i) && ReportsAt(ts, j) ensures MonthAt(ts, i) != MonthAt(ts, j) {
      if MonthAt(ts, i) == MonthAt(ts, j) {
        var k := RepeatNeedsFaults(ts, flags, i, j);
      }
    }
  }

  /** For given faults no series of ticks reports on a month twice if and only if no report can lose
      its mark and be followed by a tick that reads. */
  lemma OnePerMonthExactly(flags: seq<Flags>)
    ensures AlwaysOnePerMonth(flags) <==> !exists k, i, j :: CanRepeat(flags, k, i, j)
  {
    if k, i, j :| CanRepeat(flags, k, i, j) {
      FaultsRepeat(flags, k, i, j);
    } else {
      forall ts | Has(ts, flags) ensures OnePerMonth(ts) {
        NoFaultsNoRepeats(ts, flags);
      }
    }
  }

  lemma HasUsable(ts: seq<Tick>, flags: seq<Flags>)
    requires Has(ts, flags)
    ensures forall i :: 0 <= i < |ts| ==> Usable(ts[i])
  {
  }

  // ---------------------------------------------------------------- the lines of a report

  datatype DomainStats = DomainStats(name: string, sent: nat, failed: nat)

  /** A domain with activity in the reported month, with its counts of the month before if it had
      any then; a domain that went quiet; or no activity at all. */
  datatype Line =
    | Active(stats: DomainStats, before: Option<DomainStats>)
    | WentQuiet(was: DomainStats)
    | NoActivity

  ghost predicate NamesDistinct(s: seq<DomainStats>) {
    forall i, j :: 0 <= i < j < |s| ==> s[i].name != s[j].name
  }

  /** The entry of a domain. */
  function Lookup(s: seq<DomainStats>, name: string): Option<DomainStats> {
    if s == [] then None
    else if s[|s| - 1].name == name then Some(s[|s| - 1])
    else Lookup(s[..|s| - 1], name)
  }

  function ActiveLines(stats: seq<DomainStats>, prev: seq<DomainStats>): seq<Line> {
    seq(|stats|, i requires 0 <= i < |stats| => Active(stats[i], Lookup(prev, stats[i].name)))
  }

  function QuietLines(stats: seq<DomainStats>, prev: seq<DomainStats>): seq<Line> {
    if prev == [] then []
    else QuietLines(stats, prev[..|prev| - 1])
         + if Lookup(stats, prev[|prev| - 1].name).None? then [WentQuiet(prev[|prev| - 1])] else []
  }

  function ReportLines(stats: seq<DomainStats>, prev: seq<DomainStats>): seq<Line> {
    ActiveLines(stats, prev) + QuietLines(stats, prev) + if stats == [] && prev == [] then [NoActivity] else []
  }

  predicate About(l: Line, name: string) {
    match l
    case Active(st, _) => st.name == name
    case WentQuiet(st) => st.name == name
    case NoActivity => false
  }

  /** The number of lines about a domain. */
  function Mentions(ls: seq<Line>, name: string): nat {
    if ls == [] then 0 else Mentions(ls[..|ls| - 1], name) + if About(ls[|ls| - 1], name) then 1 else 0
  }

  /** A report is never empty, and says that there was no activity exactly if there was none. */
  lemma NoActivityExactly(stats: seq<DomainStats>, prev: seq<DomainStats>)
    ensures ReportLines(stats, prev) != []
    ensures NoActivity in ReportLines(stats, prev) <==> stats == [] && prev == []
    ensures NoActivity in ReportLines(stats, prev) ==> ReportLines(stats, prev) == [NoActivity]
  {
    forall i | 0 <= i < |QuietLines(stats, prev)| ensures QuietLines(stats, prev)[i].WentQuiet? {
      QuietAreQuiet(stats, prev, i);
    }
    if stats == [] && prev != [] {
      AllQuiet(prev);
    }
  }

  lemma {:induction false} QuietAreQuiet(stats: seq<DomainStats>, prev: seq<DomainStats>, i: nat)
    requires i < |QuietLines(stats, prev)|
    ensures QuietLines(stats, prev)[i].WentQuiet?
  {
    if i < |QuietLines(stats, prev[..|prev| - 1])| {
      QuietAreQuiet(stats, prev[..|prev| - 1], i);
    }
  }

  lemma {:induction false} AllQuiet(prev: seq<DomainStats>)
    ensures |QuietLines([], prev)| == |prev|
  {
    if prev != [] {
      AllQuiet(prev[..|prev| - 1]);
    }
  }

  lemma {:induction false} MentionsAppend(a: seq<Line>, b: seq<Line>, name: string)
    ensures Mentions(a + b, name) == Mentions(a, name) + Mentions(b, name)
  {
    if b == [] {
      assert a + b == a;
    } else {
      assert (a + b)[..|a + b| - 1] == a + b[..|b| - 1];
      MentionsAppend(a, b[..|b| - 1], name);
    }
  }

  lemma {:induction false} ActiveMentions(stats: seq<DomainStats>, prev: seq<DomainStats>, name: string)
    requires NamesDistinct(stats)
    ensures Mentions(ActiveLines(stats, prev), name) == if Lookup(stats, name).Some? then 1 else 0
  {
    if stats != [] {
      var rest := stats[..|stats| - 1];
      ActiveMentions(rest, prev, name);
      assert ActiveLines(stats, prev)[..|stats| - 1] == ActiveLines(rest, prev);
      LookupFinds(rest, name);
    }
  }

  lemma {:induction false} LookupFinds(s: seq<DomainStats>, name: string)
    ensures Lookup(s, name).Some? <==> exists k :: 0 <= k < |s| && s[k].name == name
    ensures Lookup(s, name).Some? ==> Lookup(s, name).value.name == name && Lookup(s, name).value in s
  {
    if s != [] {
      var rest := s[..|s| - 1];
      LookupFinds(rest, name);
      assert s == rest + [s[|s| - 1]];
      assert s[|s| - 1].name == name ==> exists k :: 0 <= k < |s| && s[k].name == name;
      assert forall k :: 0 <= k < |rest| ==> rest[k] == s[k];
    }
  }

  lemma {:induction false} QuietMentions(stats: seq<DomainStats>, prev: seq<DomainStats>, name: string)
    requires NamesDistinct(prev)
    ensures Mentions(QuietLines(stats, prev), name)
         == if Lookup(prev, name).Some? && Lookup(stats, name).None? then 1 else 0
  {
    if prev != [] {
      var (rest, last) := (prev[..|prev| - 1], prev[|prev| - 1]);
      var line := if Lookup(stats, last.name).None? then [WentQuiet(last)] else [];
      QuietMentions(stats, rest, name);
      MentionsAppend(QuietLines(stats, rest), line, name);
      OneQuietLine(line, last, name);
      if last.name == name {
        NotAmong(prev, name);
      }
    }
  }

  lemma OneQuietLine(line: seq<Line>, last: DomainStats, name: string)
    requires line == [] || line == [WentQuiet(last)]
    ensures Mentions(line, name) == if line != [] && last.name == name then 1 else 0
  {
    assert [WentQuiet(last)][..0] == [];
  }

  lemma NotAmong(s: seq<DomainStats>, name: string)
    requires NamesDistinct(s) && s != [] && s[|s| - 1].name == name
    ensures Lookup(s[..|s| - 1], name).None?
  {
    LookupFinds(s[..|s| - 1], name);
  }

  /** Every domain active in the reported month or the month before gets exactly one line, and no
      other domain gets any. */
  lemma OneLinePerDomain(stats: seq<DomainStats>, prev: seq<DomainStats>, name: string)
    requires NamesDistinct(stats) && NamesDistinct(prev)
    ensures Mentions(ReportLines(stats, prev), name)
         == if Lookup(stats, name).Some? || Lookup(prev, name).Some? then 1 else 0
  {
    var last := if stats == [] && prev == [] then [NoActivity] else [];
    ActiveMentions(stats, prev, name);
    QuietMentions(stats, prev, name);
    MentionsAppend(ActiveLines(stats, prev), QuietLines(stats, prev), name);
    MentionsAppend(ActiveLines(stats, prev) + QuietLines(stats, prev), last, name);
    assert [NoActivity][..0] == [];
  }

  /** The map of the comparison month, filled row by row. */
  method Index(prev: seq<DomainStats>) returns (m: map<string, DomainStats>)
    ensures forall name :: name in m <==> Lookup(prev, name).Some?
    ensures forall name :: name in m ==> Some(m[name]) == Lookup(prev, name)
  {
    m := map[];
    for i := 0 to |prev|
      invariant forall name :: name in m <==> Lookup(prev[..i], name).Some?
      invariant forall name :: name in m ==> Some(m[name]) == Lookup(prev[..i], name)
    {
      assert prev[..i + 1][..i] == prev[..i];
      m := m[prev[i].name := prev[i]];
    }
    assert prev[..|prev|] == prev;
  }

  /** The loop over this month's domains: deletes from the comparison map what it has printed. */
  method PrintActive(stats: seq<DomainStats>, prev: seq<DomainStats>, byDomain: map<string, DomainStats>)
    returns (lines: seq<Line>, left: map<string, DomainStats>)
    requires NamesDistinct(stats)
    requires forall name :: name in byDomain <==> Lookup(prev, name).Some?
    requires forall name :: name in byDomain ==> Some(byDomain[name]) == Lookup(prev, name)
    ensures lines == ActiveLines(stats, prev)
    ensures forall name :: name in left <==> Lookup(prev, name).Some? && Lookup(stats, name).None?
  {
    lines, left := [], byDomain;
    for i := 0 to |stats|
      invariant lines == ActiveLines(stats[..i], prev)
      invariant forall name :: name in left <==> Lookup(prev, name).Some? && Lookup(stats[..i], name).None?
      invariant forall name :: name in left ==> Some(left[name]) == Lookup(prev, name)
    {
      var name := stats[i].name;
      LookupFinds(stats[..i], name);
      assert stats[..i + 1][..i] == stats[..i];
      lines := lines + [Active(stats[i], if name in left then Some(left[name]) else None)];
      left := left - {name};
    }
    assert stats[..|stats|] == stats;
  }

  /** The loop over last month's domains: prints what is left in the map. */
  method PrintQuiet(stats: seq<DomainStats>, prev: seq<DomainStats>, left: map<string, DomainStats>)
    returns (lines: seq<Line>)
    requires forall name :: name in left <==> Lookup(prev, name).Some? && Lookup(stats, name).None?
    ensures lines == QuietLines(stats, prev)
  {
    lines := [];
    for i := 0 to |prev|
      invariant lines == QuietLines(stats, prev[..i])
    {
      assert prev[..i + 1][..i] == prev[..i];
      LookupFinds(prev, prev[i].name);
      if prev[i].name in left {
        lines := lines + [WentQuiet(prev[i])];
      }
    }
    assert prev[..|prev|] == prev;
  }

  /** The per-domain section of a report. */
  method Lines(stats: seq<DomainStats>, prev: seq<DomainStats>) returns (lines: seq<Line>)
    requires NamesDistinct(stats)
    ensures lines == ReportLines(stats, prev)
  {
    hide ActiveLines, QuietLines;
    var byDomain := Index(prev);
    var active, left := PrintActive(stats, prev, byDomain);
    var quiet := PrintQuiet(stats, prev, left);
    lines := active + quiet;
    if stats == [] {
      NothingLeft(prev, left);
    }
    if |stats| == 0 && |left| == 0 {
      lines := lines + [NoActivity];
    }
  }

  lemma NothingLeft(prev: seq<DomainStats>, left: map<string, DomainStats>)
    requires forall name :: name in left <==> Lookup(prev, name).Some?
    ensures |left| == 0 <==> prev == []
  {
    if prev == [] {
      assert left == map[];
    } else {
      LookupFinds(prev, prev[0].name);
      assert prev[0].name in left;
    }
  }
}
