/** The notifier object (internal/notify/notifier.go): its three ticks over the database, each shown
    to follow the machine its properties are proved about. What the domain table and the queries
    answer, and which statements fail, are parameters. */
module Notifiers {
  import opened Text
  import opened TimeText
  import opened Emails
  import opened Stores
  import opened RateAlerts
  import D = Digest
  import M = MonthlyReports
  import Q = MonthlyQueries
  import Statistics

  const DIGEST_KEY := "digest_last_sent"
  const STATS_KEY := "last_stats_sent"

  function RateKey(domain: string): string {
    "rate_fired_" + domain
  }

  lemma RateKeysDiffer(a: string, b: string)
    ensures RateKey(a) == RateKey(b) <==> a == b
    ensures RateKey(a) != DIGEST_KEY && RateKey(a) != STATS_KEY
  {
    assert RateKey(a)[11..] == a && RateKey(b)[11..] == b;
    assert RateKey(a)[0] == 'r' && DIGEST_KEY[0] == 'd' && STATS_KEY[0] == 'l';
  }

  function SystemEmail(to: string, from: string, domainId: nat, subject: string): Email {
    Email(0, domainId, from, to, "", "", "", "", subject, "", "", "", Queued, 0, "", "", "", true, "", "")
  }

  function DigestSubject(failures: nat): string {
    "doevoe: " + Decimal(failures) + " failed email(s)"
  }

  function AlertSubject(domain: string): string {
    "doevoe: elevated failure rate for " + domain
  }

  function ReportSubject(month: nat): string {
    "doevoe: monthly stats " + MonthText(month)
  }

  lemma TimesAreWritten(t: Instant)
    ensures FmtTime(t) != ""
  {
    hide DateText, ClockText;
  }

  /** The first error of a tick is the one it returns. */
  function FirstError(c: Config, state: map<string, string>, domains: seq<string>, os: seq<Observation>, n: nat): Option<nat>
    requires n <= |domains| == |os|
  {
    if n == 0 then None
    else
      var before := FirstError(c, state, domains, os, n - 1);
      if before.Some? then before
      else if Errs(c, StateOf(state, RateKey(domains[n - 1])), os[n - 1]) then Some(n - 1)
      else None
  }

  /** The domains alerted about, in order. */
  function Alerted(c: Config, state: map<string, string>, domains: seq<string>, os: seq<Observation>, n: nat): seq<string>
    requires n <= |domains| == |os|
  {
    if n == 0 then []
    else Alerted(c, state, domains, os, n - 1)
         + if Alerts(c, StateOf(state, RateKey(domains[n - 1])), os[n - 1]) then [domains[n - 1]] else []
  }

  lemma {:induction false} FirstErrorSays(c: Config, state: map<string, string>, domains: seq<string>, os: seq<Observation>, n: nat)
    requires n <= |domains| == |os|
    ensures var first := FirstError(c, state, domains, os, n);
      && (first.Some? ==>
            && first.value < n && Errs(c, StateOf(state, RateKey(domains[first.value])), os[first.value])
            && forall i :: 0 <= i < first.value ==> !Errs(c, StateOf(state, RateKey(domains[i])), os[i]))
      && (first.None? ==> forall i :: 0 <= i < n ==> !Errs(c, StateOf(state, RateKey(domains[i])), os[i]))
  {
    hide Errs, RateKey, StateOf;
    if n > 0 {
      FirstErrorSays(c, state, domains, os, n - 1);
    }
  }

  lemma {:induction false} AlertedSays(c: Config, state: map<string, string>, domains: seq<string>, os: seq<Observation>, n: nat, i: nat)
    requires n <= |domains| == |os| && i < |domains|
    requires forall j, k :: 0 <= j < k < |domains| ==> domains[j] != domains[k]
    ensures domains[i] in Alerted(c, state, domains, os, n)
       <==> i < n && Alerts(c, StateOf(state, RateKey(domains[i])), os[i])
  {
    hide Alerts, RateKey, StateOf;
    if n > 0 {
      AlertedSays(c, state, domains, os, n - 1, i);
      assert domains[i] == domains[n - 1] <==> i == n - 1;
    }
  }

  class Notifier {
    const store: Store
    const c: Config
    const adminEmail: string
    const systemFrom: string
    /** the domain of `systemFrom` */
    const systemDomain: nat

    constructor (store: Store, c: Config, adminEmail: string, systemFrom: string, systemDomain: nat)
      ensures this.store == store && this.c == c
      ensures this.adminEmail == adminEmail && this.systemFrom == systemFrom && this.systemDomain == systemDomain
    {
      this.store, this.c := store, c;
      this.adminEmail, this.systemFrom, this.systemDomain := adminEmail, systemFrom, systemDomain;
    }

    /** The queued row of a notification; its body is not modelled. */
    function Notification(subject: string, now: string): Email {
      NewRow(SystemEmail(adminEmail, systemFrom, systemDomain, subject), now)
    }

    /** A row that the notifier queued at a time: a system email, from and to the configured addresses,
        due at once, and free of every user's key. */
    predicate IsSystemMail(e: Email, now: string, subject: string) {
      && e.isSystem && e.status == Queued && e.attempts == 0
      && e.to == adminEmail && e.from == systemFrom && e.domainId == systemDomain && e.subject == subject
      && e.nextAttemptAt == now && e.createdAt == now
      && e.apiKeyId == 0 && e.idempotencyKey == "" && e.originalTo == "" && e.sentAt == ""
    }

    /** The rows after the old ones, one for each subject. */
    ghost predicate AppendsSystemMail(before: Table, after: Table, now: string, subjects: seq<string>) {
      && |after| == |before| + |subjects| && after[..|before|] == before
      && forall k :: 0 <= k < |subjects| ==> IsSystemMail(after[|before| + k], now, subjects[k])
    }

    lemma NotificationsAreSystemMail(before: Table, subject: string, now: string)
      requires now != ""
      ensures AppendsSystemMail(before, before + [Notification(subject, now)], now, [subject])
      ensures AppendsSystemMail(before, before, now, [])
    {
    }

    lemma AlertsAreSystemMail(before: Table, domains: seq<string>, now: string)
      requires now != ""
      ensures AppendsSystemMail(before, before + AlertRows(domains, now), now, AlertSubjects(domains))
    {
    }

    function AlertSubjects(domains: seq<string>): seq<string> {
      seq(|domains|, i requires 0 <= i < |domains| => "doevoe: elevated failure rate for " + domains[i])
    }

    /** One alert for each of the domains, in order. */
    function AlertRows(domains: seq<string>, now: string): Table {
      seq(|domains|, i requires 0 <= i < |domains| => Notification(AlertSubject(domains[i]), now))
    }

    /** Queues a system email, unless the system domain is missing or unverified. */
    method Enqueue(subject: string, fate: Fate, now: string) returns (sent: bool)
      modifies store`emails
      ensures sent <==> fate == Enqueued
      ensures store.emails == old(store.emails) + if sent then [Notification(subject, now)] else []
    {
      sent := fate == Enqueued;
      if sent {
        var id := store.EnqueueEmail(SystemEmail(adminEmail, systemFrom, systemDomain, subject), now);
      }
    }

    /** A failure of the notifier's own emails is never reported. */
    method PermanentFailure(id: nat)
      modifies store`pending
      ensures store.pending == old(store.pending)
        + if id < |store.emails| && !store.emails[id].isSystem then {id} else {}
      ensures id < |store.emails| && store.emails[id].isSystem ==> store.pending == old(store.pending)
    {
      if id < |store.emails| && !store.emails[id].isSystem {
        store.AddPendingFailure(id);
      }
    }

    // -------------------------------------------------------------- digest

    /** The digest machine in the state of the database, between ticks. */
    ghost function DigestState(): D.State
      reads this, store
    {
      D.INITIAL.(pending := store.pending, last := StateOf(store.state, DIGEST_KEY))
    }

    /** The statements of one tick, run without interruption. */
    static ghost function DigestRun(s: D.State, at: Instant, readOk: bool, sent: bool, clearOk: bool, writeOk: bool): D.State
      requires s.pc == D.Idle && FourDigitYear(Seconds(at))
    {
      var s1 := D.Apply(s, D.List(at));
      if s1.pc.Idle? then s1 else
        var s2 := D.Apply(s1, D.Cooldown(readOk));
        if s2.pc.Idle? then s2 else
          var s3 := D.Apply(s2, D.Enqueue(sent));
          if s3.pc.Idle? then s3 else
            var s4 := D.Apply(s3, D.Clear(clearOk));
            if s4.pc.Idle? then s4 else D.Apply(s4, D.SetState(writeOk))
    }

    /** What the run amounts to. */
    static lemma DigestRunSays(pending: set<nat>, last: string, at: Instant, readOk: bool, sent: bool, clearOk: bool, writeOk: bool)
      requires FourDigitYear(Seconds(at))
      ensures var after := DigestRun(D.INITIAL.(pending := pending, last := last), at, readOk, sent, clearOk, writeOk);
        if pending == {} || D.Cooling(if readOk then last else "", at) || !sent
        then after.pending == pending && after.last == last && after.digests == []
        else
          && after.digests == [D.Sent(at, pending, readOk, clearOk && writeOk)]
          && after.pending == (if clearOk then {} else pending)
          && after.last == if clearOk && writeOk then FmtTime(at) else last
    {
      hide FmtTime, D.Cooling;
      if pending == {} || D.Cooling(if readOk then last else "", at) || !sent {
        QuietRun(pending, last, at, readOk, sent, clearOk, writeOk);
      } else {
        var s := D.INITIAL.(pending := pending, last := last, pc := D.Due(at, pending, readOk));
        var s3 := D.Apply(s, D.Enqueue(sent));
        assert s3.pc == D.Enqueued(at, pending) && s3.digests == [D.Sent(at, pending, readOk, false)];
        assert DigestRun(D.INITIAL.(pending := pending, last := last), at, readOk, sent, clearOk, writeOk)
            == var s4 := D.Apply(s3, D.Clear(clearOk)); if s4.pc.Idle? then s4 else D.Apply(s4, D.SetState(writeOk));
      }
    }

    static lemma QuietRun(pending: set<nat>, last: string, at: Instant, readOk: bool, sent: bool, clearOk: bool, writeOk: bool)
      requires FourDigitYear(Seconds(at))
      requires pending == {} || D.Cooling(if readOk then last else "", at) || !sent
      ensures var after := DigestRun(D.INITIAL.(pending := pending, last := last), at, readOk, sent, clearOk, writeOk);
        after.pending == pending && after.last == last && after.digests == []
    {
      hide FmtTime, D.Cooling;
    }

    /** One digest tick is a run of the digest machine; `digest` lists the pending emails in order. */
    method DigestTick(at: Instant, readOk: bool, fate: Fate, clearOk: bool, writeOk: bool) returns (digest: Option<seq<nat>>)
      requires FourDigitYear(Seconds(at)) && forall i :: i in store.pending ==> i < |store.emails|
      modifies store
      ensures var after := DigestRun(old(DigestState()), at, readOk, fate == Enqueued, clearOk, writeOk);
        && store.pending == after.pending && StateOf(store.state, DIGEST_KEY) == after.last
        && (digest.Some? <==> after.digests != [])
        && (digest.Some? ==> after.digests == [D.Sent(at, old(store.pending), readOk, clearOk && writeOk)])
      ensures forall k :: k != DIGEST_KEY ==> StateOf(store.state, k) == StateOf(old(store.state), k)
      ensures digest.Some? ==> digest.value != [] && forall i :: i in digest.value <==> i in old(store.pending)
      ensures digest.Some? ==> forall i, j :: 0 <= i < j < |digest.value| ==> digest.value[i] < digest.value[j]
      ensures store.emails == old(store.emails)
        + if digest.Some? then [Notification(DigestSubject(|digest.value|), FmtTime(at))] else []
      ensures AppendsSystemMail(old(store.emails), store.emails, FmtTime(at),
        if digest.Some? then [DigestSubject(|digest.value|)] else [])
    {
      hide DigestSubject, Notification, AppendsSystemMail;
      hide FmtTime, FourDigitYear, D.Cooling, DigestRun;
      TimesAreWritten(at);
      NotificationsAreSystemMail(store.emails, "", FmtTime(at));
      DigestRunSays(store.pending, StateOf(store.state, DIGEST_KEY), at, readOk, fate == Enqueued, clearOk, writeOk);
      digest := None;
      var ids := store.ListPendingFailures();
      assert ids == [] ==> forall i :: i !in store.pending;
      if ids == [] {
        return;
      }
      assert ids[0] in ids;
      var last := "";
      if readOk {
        last := store.GetState(DIGEST_KEY);
      }
      if D.Cooling(last, at) {
        return;
      }
      NotificationsAreSystemMail(store.emails, DigestSubject(|ids|), FmtTime(at));
      var sent := Enqueue(DigestSubject(|ids|), fate, FmtTime(at));
      if !sent {
        assert store.emails == old(store.emails);
        return;
      }
      digest := Some(ids);
      if clearOk {
        store.ClearPendingFailures();
        if writeOk {
          store.SetState(DIGEST_KEY, FmtTime(at));
        }
      }
    }

    // -------------------------------------------------------------- failure rates

    /** One rate tick. Each domain's state after the tick and its alert depend on that domain's own
        observation alone: an error on one domain changes nothing for the others. */
    method RateTick(domains: seq<string>, os: seq<Observation>, at: Instant) returns (alerted: seq<string>, firstErr: Option<nat>)
      requires |domains| == |os| && forall i, j :: 0 <= i < j < |domains| ==> domains[i] != domains[j]
      modifies store`state, store`emails
      ensures forall i :: 0 <= i < |domains| ==>
        StateOf(store.state, RateKey(domains[i])) == After(c, StateOf(old(store.state), RateKey(domains[i])), os[i])
      ensures forall k :: (forall i :: 0 <= i < |domains| ==> k != RateKey(domains[i])) ==>
        StateOf(store.state, k) == StateOf(old(store.state), k)
      ensures alerted == Alerted(c, old(store.state), domains, os, |domains|)
      ensures forall i :: 0 <= i < |domains| ==>
        (domains[i] in alerted <==> Alerts(c, StateOf(old(store.state), RateKey(domains[i])), os[i]))
      ensures firstErr == FirstError(c, old(store.state), domains, os, |domains|)
      ensures firstErr.Some? ==>
        && firstErr.value < |domains|
        && Errs(c, StateOf(old(store.state), RateKey(domains[firstErr.value])), os[firstErr.value])
        && forall i :: 0 <= i < firstErr.value ==> !Errs(c, StateOf(old(store.state), RateKey(domains[i])), os[i])
      ensures firstErr.None? ==> forall i :: 0 <= i < |domains| ==> !Errs(c, StateOf(old(store.state), RateKey(domains[i])), os[i])
      ensures store.emails == old(store.emails) + AlertRows(alerted, FmtTime(at))
      ensures AppendsSystemMail(old(store.emails), store.emails, FmtTime(at), AlertSubjects(alerted))
    {
      hide Notification, AlertSubject, AppendsSystemMail, FmtTime;
      var now := FmtTime(at);
      TimesAreWritten(at);
      hide Rate, RateKey, After, Alerts, Errs, StateOf;
      ghost var before := store.state;
      alerted, firstErr := [], None;
      for n := 0 to |domains|
        invariant forall i :: 0 <= i < n ==>
          StateOf(store.state, RateKey(domains[i])) == After(c, StateOf(before, RateKey(domains[i])), os[i])
        invariant forall k :: (forall i :: 0 <= i < n ==> k != RateKey(domains[i])) ==>
          StateOf(store.state, k) == StateOf(before, k)
        invariant alerted == Alerted(c, before, domains, os, n)
        invariant firstErr == FirstError(c, before, domains, os, n)
        invariant store.emails == old(store.emails) + AlertRows(alerted, now)
      {
        forall i | 0 <= i < |domains| ensures RateKey(domains[i]) == RateKey(domains[n]) <==> i == n {
          RateKeysDiffer(domains[i], domains[n]);
        }
        var alert, err := RateStep(domains[n], os[n], now);
        if alert {
          alerted := alerted + [domains[n]];
          assert AlertRows(alerted, now) == AlertRows(alerted[..|alerted| - 1], now) + [Notification(AlertSubject(domains[n]), now)];
        }
        if err && firstErr.None? {
          firstErr := Some(n);
        }
      }
      AlertsAreSystemMail(old(store.emails), alerted, now);
      FirstErrorSays(c, before, domains, os, |domains|);
      forall i | 0 <= i < |domains|
        ensures domains[i] in alerted <==> Alerts(c, StateOf(before, RateKey(domains[i])), os[i])
      {
        AlertedSays(c, before, domains, os, |domains|, i);
      }
    }

    /** The body of the loop, for one domain. */
    method RateStep(domain: string, o: Observation, now: string) returns (alert: bool, err: bool)
      modifies store`state, store`emails
      ensures StateOf(store.state, RateKey(domain)) == After(c, StateOf(old(store.state), RateKey(domain)), o)
      ensures forall k :: k != RateKey(domain) ==> StateOf(store.state, k) == StateOf(old(store.state), k)
      ensures alert <==> Alerts(c, StateOf(old(store.state), RateKey(domain)), o)
      ensures err <==> Errs(c, StateOf(old(store.state), RateKey(domain)), o)
      ensures store.emails == old(store.emails) + if alert then [Notification(AlertSubject(domain), now)] else []
    {
      hide RateKey, AlertSubject, Notification;
      alert, err := false, false;
      if o.counts.None? {
        return false, true;
      }
      var (failed, total) := o.counts.value;
      var fired := "";
      if o.readOk {
        fired := store.GetState(RateKey(domain));
      }
      var rate := Rate(failed, total);
      if total >= c.minVolume && rate >= c.threshold && fired != "fired" {
        alert := Enqueue(AlertSubject(domain), o.fate, now);
        err := o.fate == Error;
        if alert {
          if o.writeOk {
            store.SetState(RateKey(domain), "fired");
          } else {
            err := true;
          }
        }
      } else if rate < c.threshold && fired == "fired" {
        if o.writeOk {
          store.SetState(RateKey(domain), "");
        } else {
          err := true;
        }
      }
    }

    // -------------------------------------------------------------- monthly report

    /** The month compared with, unless its query fails. */
    static function Compared(now: Instant, ok: bool): Option<nat>
      requires M.MonthOf(now) >= 2
    {
      if ok then Some(M.ComparedMonth(now)) else None
    }

    lemma TrueLines(t: M.Tick, domains: map<nat, string>, compareOk: bool)
      requires M.Usable(t) && 2 <= M.MonthOf(t.now)
      ensures M.PreviousMonth(t.now) + 1 == M.MonthOf(t.now)
      ensures var (month, before) := (M.PreviousMonth(t.now), Compared(t.now, compareOk));
        var lines := M.ReportLines(Q.MonthlyStats(store.emails, domains, month), Q.ComparedStats(store.emails, domains, before));
        Statistics.Stamped(store.emails) ==>
          && (forall k :: 0 <= k < |lines| ==> Q.LineIsRight(store.emails, domains, month, before, lines[k]))
          && (forall name :: Q.ActiveIn(store.emails, domains, month, name) ==> M.Mentions(lines, name) == 1)
    {
      hide M.MonthOf, M.PreviousMonth, M.ReportLines, M.ComparedMonth, Q.MonthlyStats, Q.ComparedStats;
      hide Statistics.Stamped, Q.LineIsRight, Q.ActiveIn, M.Mentions;
      M.PreviousIsPredecessor(t.now);
      M.ComparedIsTheOneBefore(t.now);
      var (month, before) := (M.PreviousMonth(t.now), Compared(t.now, compareOk));
      var lines := M.ReportLines(Q.MonthlyStats(store.emails, domains, month), Q.ComparedStats(store.emails, domains, before));
      if Statistics.Stamped(store.emails) {
        forall k | 0 <= k < |lines| ensures Q.LineIsRight(store.emails, domains, month, before, lines[k]) {
          Q.LinesAreRight(store.emails, domains, month, before, k);
        }
        forall name | Q.ActiveIn(store.emails, domains, month, name) ensures M.Mentions(lines, name) == 1 {
          Q.ActiveDomainsHaveOneLine(store.emails, domains, month, before, name);
        }
      }
    }

    /** One statistics tick is a step of the report machine. The report is about the month before the
        tick's, and each line gives its domain's true counts in that month and in the one before it,
        which is left out if its query fails. */
    method StatsTick(t: M.Tick, fate: Fate, ghost domains: map<nat, string>, compareOk: bool,
                     stats: seq<M.DomainStats>, prevStats: seq<M.DomainStats>)
      returns (report: Option<(nat, seq<M.Line>)>)
      requires M.Usable(t) && 2 <= M.MonthOf(t.now) && (t.sent <==> fate == Enqueued)
      requires stats == Q.MonthlyStats(store.emails, domains, M.PreviousMonth(t.now))
      requires prevStats == Q.ComparedStats(store.emails, domains, Compared(t.now, compareOk))
      modifies store`state, store`emails
      ensures report.Some? ==> report.value.0 + 1 == M.MonthOf(t.now)
      ensures report.Some? && Statistics.Stamped(old(store.emails)) ==>
        && (forall k :: 0 <= k < |report.value.1| ==>
              Q.LineIsRight(old(store.emails), domains, report.value.0, Compared(t.now, compareOk), report.value.1[k]))
        && (forall name :: Q.ActiveIn(old(store.emails), domains, report.value.0, name) ==> M.Mentions(report.value.1, name) == 1)
      ensures var after := M.AfterTick(M.State(StateOf(old(store.state), STATS_KEY), []), t);
        && StateOf(store.state, STATS_KEY) == after.last
        && (report.Some? <==> after.reports != [])
        && (report.Some? ==> after.reports == [M.Report(M.MonthOf(t.now), report.value.0)]
                             && report.value.1 == M.ReportLines(stats, prevStats))
      ensures forall k :: k != STATS_KEY ==> StateOf(store.state, k) == StateOf(old(store.state), k)
      ensures store.emails == old(store.emails)
        + if report.Some? then [Notification(ReportSubject(report.value.0), FmtTime(t.now))] else []
      ensures AppendsSystemMail(old(store.emails), store.emails, FmtTime(t.now),
        if report.Some? then [ReportSubject(report.value.0)] else [])
    {
      hide ReportSubject, Notification, AppendsSystemMail;
      hide FmtTime, M.MonthOf, MonthText, M.PreviousMonth, M.ReportLines, M.ComparedMonth, Q.MonthlyStats, Q.ComparedStats;
      hide Statistics.Stamped, Q.LineIsRight, Q.ActiveIn, M.Mentions;
      TimesAreWritten(t.now);
      NotificationsAreSystemMail(store.emails, "", FmtTime(t.now));
      report := None;
      var current := MonthText(M.MonthOf(t.now));
      var last := "";
      if t.readOk {
        last := store.GetState(STATS_KEY);
      }
      if last == "" {
        if t.writeOk {
          store.SetState(STATS_KEY, current);
        }
        return;
      }
      if last == current {
        return;
      }
      var month := M.PreviousMonth(t.now);
      TrueLines(t, domains, compareOk);
      Q.MonthlyNamesDistinct(store.emails, domains, month);
      var lines := M.Lines(stats, prevStats);
      NotificationsAreSystemMail(store.emails, ReportSubject(month), FmtTime(t.now));
      var sent := Enqueue(ReportSubject(month), fate, FmtTime(t.now));
      if !sent {
        assert store.emails == old(store.emails);
        return;
      }
      report := Some((month, lines));
      if t.writeOk {
        store.SetState(STATS_KEY, current);
      }
    }
  }
}
