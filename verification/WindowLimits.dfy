/** Where the 45 minute window is enough for several workers, and where it is not: a run in which the
    last goroutines of a batch wait for their domain's tokens until another worker releases and
    claims their email again. The run keeps every bound of the timed machine. */
module WindowLimits {
  import opened Text
  import opened Calendar
  import opened TimeText
  import opened Emails
  import opened Protocol
  import opened ManyWorkers

  ghost predicate Reaches(c: Limits, s: Timed, s': Timed) {
    exists evs :: TimedRuns(c, s, evs) && TimedExec(c, s, evs) == s'
  }

  /** In every reachable state open claims are exclusive. */
  ghost predicate AlwaysExclusive(c: Limits) {
    forall s :: Reaches(c, START, s) ==> Exclusive(s)
  }

  lemma Stays(c: Limits, s: Timed)
    ensures Reaches(c, s, s)
  {
    assert TimedRuns(c, s, []) && TimedExec(c, s, []) == s;
  }

  lemma Steps(c: Limits, s: Timed, ev: Event)
    requires Possible(c, s, ev)
    ensures Reaches(c, s, Happen(c, s, ev))
  {
    hide Possible, Happen;
    assert [ev][1..] == [];
    assert TimedRuns(c, s, [ev]) && TimedExec(c, s, [ev]) == Happen(c, s, ev);
  }

  lemma {:induction false} RunsOn(c: Limits, s: Timed, a: seq<Event>, b: seq<Event>)
    requires TimedRuns(c, s, a) && TimedRuns(c, TimedExec(c, s, a), b)
    ensures TimedRuns(c, s, a + b) && TimedExec(c, s, a + b) == TimedExec(c, TimedExec(c, s, a), b)
    decreases |a|
  {
    hide Possible, Happen;
    if a == [] {
      assert a + b == b;
    } else {
      assert (a + b)[0] == a[0] && (a + b)[1..] == a[1..] + b;
      RunsOn(c, Happen(c, s, a[0]), a[1..], b);
    }
  }

  lemma ReachesOn(c: Limits, s: Timed, s': Timed, s'': Timed)
    requires Reaches(c, s, s') && Reaches(c, s', s'')
    ensures Reaches(c, s, s'')
  {
    var a :| TimedRuns(c, s, a) && TimedExec(c, s, a) == s';
    var b :| TimedRuns(c, s', b) && TimedExec(c, s', b) == s'';
    RunsOn(c, s, a, b);
  }

  // ---------------------------------------------------------------- waves of Sends

  function Rows(n: nat, sent: nat, claimed: Email): Table {
    seq(n, i => if i < sent then SentRow(claimed, "") else claimed)
  }

  function WaveStage(i: nat, ended: nat, started: nat, since: Instant): Stage {
    if i < ended then Ended else if i < started then Working(since) else AtToken
  }

  /** `n` emails of one domain, claimed together by worker 0 at `at`: the first `ended` goroutines have
      sent theirs, those up to `started` have been sending since `since`, the others wait. */
  function Wave(n: nat, ended: nat, started: nat, since: Instant, clock: Instant, claimed: Email, at: Instant): Timed {
    Timed(Rows(n, ended, claimed),
          seq(n, i requires 0 <= i < n => Flight(0, i, claimed, at, WaveStage(i, ended, started, since))), clock)
  }

  lemma WaveHolders(n: nat, ended: nat, started: nat, since: Instant, clock: Instant, claimed: Email, at: Instant)
    requires ended <= started <= n
    ensures |TokenHolders(Wave(n, ended, started, since, clock, claimed, at).flights, 0, RcptDomain(claimed.to))| == started - ended
  {
    hide RcptDomain;
    assert TokenHolders(Wave(n, ended, started, since, clock, claimed, at).flights, 0, RcptDomain(claimed.to))
        == Interval(ended, started - ended);
  }

  lemma StartOne(c: Limits, n: nat, ended: nat, started: nat, clock: Instant, claimed: Email, at: Instant)
    requires ended <= started < n && started - ended < c.limit
    ensures Reaches(c, Wave(n, ended, started, clock, clock, claimed, at), Wave(n, ended, started + 1, clock, clock, claimed, at))
  {
    hide RcptDomain, TokenHolders, Reaches;
    var s := Wave(n, ended, started, clock, clock, claimed, at);
    WaveHolders(n, ended, started, clock, clock, claimed, at);
    assert Possible(c, s, TakeToken(started));
    assert Happen(c, s, TakeToken(started)) == Wave(n, ended, started + 1, clock, clock, claimed, at);
    Steps(c, s, TakeToken(started));
  }

  lemma {:induction false} StartMany(c: Limits, n: nat, ended: nat, m: nat, clock: Instant, claimed: Email, at: Instant)
    requires ended + m <= n && m <= c.limit
    ensures Reaches(c, Wave(n, ended, ended, clock, clock, claimed, at), Wave(n, ended, ended + m, clock, clock, claimed, at))
  {
    hide Wave, Reaches;
    var s := Wave(n, ended, ended, clock, clock, claimed, at);
    if m == 0 {
      Stays(c, s);
    } else {
      StartMany(c, n, ended, m - 1, clock, claimed, at);
      StartOne(c, n, ended, ended + m - 1, clock, claimed, at);
      ReachesOn(c, s, Wave(n, ended, ended + m - 1, clock, clock, claimed, at), Wave(n, ended, ended + m, clock, clock, claimed, at));
    }
  }

  lemma EndOne(c: Limits, n: nat, ended: nat, started: nat, since: Instant, clock: Instant, claimed: Email, at: Instant)
    requires ended < started <= n
    ensures Reaches(c, Wave(n, ended, started, since, clock, claimed, at), Wave(n, ended + 1, started, since, clock, claimed, at))
  {
    hide Reaches;
    var s := Wave(n, ended, started, since, clock, claimed, at);
    var s' := Wave(n, ended + 1, started, since, clock, claimed, at);
    var mid := Timed(s'.table, s.flights[ended := s.flights[ended].(stage := Leaving(since))], clock);
    assert Happen(c, s, WriteOutcome(ended, Accepted, "", true)) == mid;
    Steps(c, s, WriteOutcome(ended, Accepted, "", true));
    assert Happen(c, mid, GiveToken(ended)) == s';
    Steps(c, mid, GiveToken(ended));
    ReachesOn(c, s, mid, s');
  }

  lemma {:induction false} EndMany(c: Limits, n: nat, ended: nat, m: nat, since: Instant, clock: Instant, claimed: Email, at: Instant)
    requires ended + m <= n
    ensures Reaches(c, Wave(n, ended, ended + m, since, clock, claimed, at), Wave(n, ended + m, ended + m, since, clock, claimed, at))
    decreases m
  {
    hide Wave, Reaches;
    var s := Wave(n, ended, ended + m, since, clock, claimed, at);
    if m == 0 {
      Stays(c, s);
    } else {
      EndOne(c, n, ended, ended + m, since, clock, claimed, at);
      EndMany(c, n, ended + 1, m - 1, since, clock, claimed, at);
      ReachesOn(c, s, Wave(n, ended + 1, ended + m, since, clock, claimed, at), Wave(n, ended + m, ended + m, since, clock, claimed, at));
    }
  }

  /** Time passes while all tokens are taken, or nobody waits. */
  lemma SendsLast(c: Limits, n: nat, ended: nat, started: nat, since: Instant, b: nat, claimed: Email, at: Instant)
    requires ended <= started <= n && (started == n || started - ended >= c.limit)
    requires b <= c.sendBound && Dated(since + b)
    ensures Reaches(c, Wave(n, ended, started, since, since, claimed, at), Wave(n, ended, started, since, since + b, claimed, at))
  {
    hide RcptDomain, TokenHolders, Reaches, Dated;
    var s := Wave(n, ended, started, since, since, claimed, at);
    WaveHolders(n, ended, started, since, since, claimed, at);
    assert Possible(c, s, Advance(since + b));
    assert Happen(c, s, Advance(since + b)) == Wave(n, ended, started, since, since + b, claimed, at);
    Steps(c, s, Advance(since + b));
  }

  lemma OneWave(c: Limits, n: nat, ended: nat, t: Instant, b: nat, claimed: Email, at: Instant)
    requires ended + c.limit <= n && b <= c.sendBound && Dated(t + b)
    ensures Reaches(c, Wave(n, ended, ended, t, t, claimed, at),
                    Wave(n, ended + c.limit, ended + c.limit, t + b, t + b, claimed, at))
  {
    hide Reaches, Dated;
    var done := ended + c.limit;
    StartMany(c, n, ended, c.limit, t, claimed, at);
    SendsLast(c, n, ended, done, t, b, claimed, at);
    EndMany(c, n, ended, c.limit, t, t + b, claimed, at);
    assert Wave(n, done, done, t, t + b, claimed, at) == Wave(n, done, done, t + b, t + b, claimed, at);
    hide Wave;
    var (s, s1, s2) := (Wave(n, ended, ended, t, t, claimed, at), Wave(n, ended, done, t, t, claimed, at),
                        Wave(n, ended, done, t, t + b, claimed, at));
    ReachesOn(c, s, s1, s2);
    ReachesOn(c, s, s2, Wave(n, done, done, t, t + b, claimed, at));
  }

  lemma {:induction false} Waves(c: Limits, n: nat, q: nat, t: Instant, b: nat, claimed: Email, at: Instant)
    requires q * c.limit <= n && b <= c.sendBound && t + q * b <= 4 * WINDOW
    ensures Reaches(c, Wave(n, 0, 0, t, t, claimed, at),
                    Wave(n, q * c.limit, q * c.limit, t + q * b, t + q * b, claimed, at))
  {
    hide Reaches, Wave, Dated;
    if q == 0 {
      Stays(c, Wave(n, 0, 0, t, t, claimed, at));
    } else {
      var (before, now) := ((q - 1) * c.limit, t + (q - 1) * b);
      assert q * c.limit == before + c.limit && t + q * b == now + b;
      Waves(c, n, q - 1, t, b, claimed, at);
      EarlyIsDated(now + b);
      OneWave(c, n, before, now, b, claimed, at);
      ReachesOn(c, Wave(n, 0, 0, t, t, claimed, at), Wave(n, before, before, now, now, claimed, at),
                Wave(n, before + c.limit, before + c.limit, now + b, now + b, claimed, at));
    }
  }

  // ---------------------------------------------------------------- the first and the second claim

  const LATE := NANOS - 1 // the last nanosecond of the first second

  lemma EarlyIsDated(t: Instant)
    requires t <= 4 * WINDOW
    ensures Dated(t)
  {
    assert DateOf(0).month == 0;
    assert Seconds(t) / DAY == 0;
  }

  lemma EarlyOrder(t: Instant)
    requires t <= 4 * WINDOW
    ensures FmtTime(LATE) == FmtTime(0)
    ensures Leq(FmtTime(LATE), FmtTime(t))
  {
    hide FmtSeconds, Leq;
    EarlyIsDated(t);
    EarlyIsDated(0);
    assert Seconds(LATE) == 0;
    FmtOrder(0, Seconds(t));
  }

  lemma {:induction false} AddMany(c: Limits, n: nat, e: Email)
    requires e.apiKeyId == 0
    ensures Reaches(c, START, Timed(seq(n, i => NewRow(e, FmtTime(0))), [], 0))
  {
    hide NewRow, FmtTime, Reaches;
    if n == 0 {
      assert seq(n, i => NewRow(e, FmtTime(0))) == [];
      Stays(c, START);
    } else {
      AddMany(c, n - 1, e);
      var s := Timed(seq(n - 1, i => NewRow(e, FmtTime(0))), [], 0);
      assert !KeyTaken(s.table, e.apiKeyId, e.idempotencyKey);
      var ev := AddEmail(e, FmtTime(0));
      assert Happen(c, s, ev).table == seq(n, i => NewRow(e, FmtTime(0)));
      Steps(c, s, ev);
      ReachesOn(c, START, s, Happen(c, s, ev));
    }
  }

  lemma ClaimAll(n: nat, row: Email, limit: nat, now: string)
    requires n <= limit && row.status == Queued && Leq(row.nextAttemptAt, now)
    ensures IsClaim(seq(n, i => row), seq(n, i requires 0 <= i < n => i), limit, now)
  {
    hide Leq;
    var (t, ids) := (seq(n, i => row), seq(n, i requires 0 <= i < n => i));
    assert DueIds(t, now) == Interval(0, n);
    forall i | i in DueIds(t, now) ensures i in ids {
      assert ids[i] == i;
    }
  }

  /** All emails are claimed in the last nanosecond of a second, and the claim takes `delay`. */
  lemma FirstClaim(c: Limits, n: nat, e: Email, delay: nat)
    requires n <= c.batch && delay <= c.storeTime && delay <= WINDOW && e.apiKeyId == 0 && e.nextAttemptAt == ""
    ensures var claimed := ClaimedRow(NewRow(e, FmtTime(0)), FmtTime(LATE));
      Reaches(c, START, Wave(n, 0, 0, LATE + delay, LATE + delay, claimed, LATE))
  {
    hide FmtTime, Leq, Reaches, Dated, IsClaim;
    var row := NewRow(e, FmtTime(0));
    var claimed := ClaimedRow(row, FmtTime(LATE));
    var (t, table, ids) := (LATE + delay, seq(n, i => row), seq(n, i requires 0 <= i < n => i));
    var (s1, s2) := (Timed(table, [], 0), Timed(table, [], t));
    AddMany(c, n, e);
    assert seq(n, i => NewRow(e, FmtTime(0))) == table;
    EarlyIsDated(t);
    assert Happen(c, s1, Advance(t)) == s2;
    Steps(c, s1, Advance(t));
    ReachesOn(c, START, s1, s2);
    EarlyOrder(LATE);
    ClaimAll(n, row, c.batch, FmtTime(LATE));
    var ev := ClaimRows(0, ids, LATE);
    assert Possible(c, s2, ev);
    ClaimedAll(n, row, claimed, ids);
    assert Happen(c, s2, ev) == Wave(n, 0, 0, t, t, claimed, LATE);
    Steps(c, s2, ev);
    ReachesOn(c, START, s2, Wave(n, 0, 0, t, t, claimed, LATE));
  }

  lemma ClaimedAll(n: nat, row: Email, claimed: Email, ids: seq<nat>)
    requires ids == seq(n, i requires 0 <= i < n => i) && claimed == ClaimedRow(row, FmtTime(LATE))
    ensures Claimed(seq(n, i => row), ids, FmtTime(LATE)) == Rows(n, 0, claimed)
  {
    hide FmtTime, ClaimedRow;
    forall i: nat | i < n ensures i in ids {
      assert ids[i] == i;
    }
  }

  /** Another worker finds the last claim stale and claims its email again. */
  lemma SecondClaim(c: Limits, n: nat, since: Instant, t: Instant, claimed: Email) returns (s': Timed)
    requires n > 0 && c.batch > 0 && WINDOW <= t <= 4 * WINDOW
    requires claimed.status == Sending && claimed.nextAttemptAt == FmtTime(LATE)
    ensures Reaches(c, Wave(n, n - 1, n, since, t, claimed, LATE), s') && !Exclusive(s') && |s'.table| == n
  {
    hide FmtTime, Leq, Reaches, Dated, IsClaim;
    var s := Wave(n, n - 1, n, since, t, claimed, LATE);
    EarlyOrder(Cutoff(t));
    EarlyOrder(t);
    var released := claimed.(status := Queued);
    var ev := StaleRequeue(1, t);
    assert Possible(c, s, ev);
    var mid := Happen(c, s, ev);
    LastIsReleased(n, claimed, FmtTime(Cutoff(t)));
    assert mid.table == s.table[n - 1 := released];
    assert mid.flights == s.flights && mid.clock == t;
    Steps(c, s, ev);
    assert forall i :: 0 <= i < n - 1 ==> s.table[i] == SentRow(claimed, "");
    OneDue(mid.table, n - 1, c.batch, FmtTime(t));
    var again := ClaimRows(1, [n - 1], t);
    assert Possible(c, mid, again);
    s' := Happen(c, mid, again);
    Steps(c, mid, again);
    ReachesOn(c, s, mid, s');
    assert s'.flights[n - 1].id == s'.flights[n].id;
    assert Live(s'.flights[n - 1]) && Live(s'.flights[n]);
  }

  lemma LastIsReleased(n: nat, claimed: Email, cutoff: string)
    requires n > 0 && claimed.status == Sending && Leq(claimed.nextAttemptAt, cutoff)
    ensures StaleReleased(Rows(n, n - 1, claimed), cutoff) == Rows(n, n - 1, claimed)[n - 1 := claimed.(status := Queued)]
  {
    hide Leq;
    var rows := Rows(n, n - 1, claimed);
    forall i | 0 <= i < n
      ensures StaleReleased(rows, cutoff)[i] == rows[n - 1 := claimed.(status := Queued)][i]
    {
      assert i < n - 1 ==> rows[i] == SentRow(claimed, "");
      assert i == n - 1 ==> rows[i] == claimed;
      assert SentRow(claimed, "").status == Sent;
      ReleasedRow(rows[i], cutoff);
    }
  }

  lemma OneDue(t: Table, k: nat, limit: nat, now: string)
    requires k < |t| && limit > 0 && Due(t[k], now)
    requires forall i :: 0 <= i < |t| && i != k ==> t[i].status != Queued
    ensures IsClaim(t, [k], limit, now)
  {
    hide Leq;
    assert DueIds(t, now) == {k};
  }

  /** The whole run: q full waves of Sends and one more Send, `delay` before them. */
  lemma Overlap(c: Limits, q: nat, delay: nat, b: nat, e: Email) returns (s': Timed)
    requires q * c.limit < c.batch && delay <= c.storeTime && delay <= WINDOW && b <= c.sendBound
    requires Proper(c) && e.apiKeyId == 0 && e.nextAttemptAt == ""
    requires WINDOW <= LATE + delay + q * b + b <= 4 * WINDOW
    ensures Reaches(c, START, s') && !Exclusive(s') && |s'.table| == q * c.limit + 1
  {
    hide FmtTime, Reaches, Wave, Exclusive, Dated;
    var (ended, t0) := (q * c.limit, LATE + delay);
    var (n, t1) := (ended + 1, t0 + q * b);
    var claimed := ClaimedRow(NewRow(e, FmtTime(0)), FmtTime(LATE));
    FirstClaim(c, n, e, delay);
    Waves(c, n, q, t0, b, claimed, LATE);
    ReachesOn(c, START, Wave(n, 0, 0, t0, t0, claimed, LATE), Wave(n, ended, ended, t1, t1, claimed, LATE));
    StartMany(c, n, ended, 1, t1, claimed, LATE);
    ReachesOn(c, START, Wave(n, ended, ended, t1, t1, claimed, LATE), Wave(n, ended, n, t1, t1, claimed, LATE));
    EarlyIsDated(t1 + b);
    SendsLast(c, n, ended, n, t1, b, claimed, LATE);
    ReachesOn(c, START, Wave(n, ended, n, t1, t1, claimed, LATE), Wave(n, ended, n, t1, t1 + b, claimed, LATE));
    s' := SecondClaim(c, n, t1, t1 + b, claimed);
    ReachesOn(c, START, Wave(n, ended, n, t1, t1 + b, claimed, LATE), s');
  }

  // ---------------------------------------------------------------- the exact condition

  function Min(a: nat, b: nat): nat {
    if a < b then a else b
  }

  /** The fewest waves that outlast the window. */
  lemma {:induction false} FewestWaves(most: nat, delay: nat, b: nat) returns (q: nat)
    requires delay <= WINDOW && b <= WINDOW && LATE + delay + most * b + b >= WINDOW
    ensures q <= most && WINDOW <= LATE + delay + q * b + b <= 4 * WINDOW
  {
    q := most;
    if most > 0 && LATE + delay + (most - 1) * b + b >= WINDOW {
      q := FewestWaves(most - 1, delay, b);
    } else if most > 0 {
      assert (most - 1) * b + b == most * b;
    }
  }

  lemma CutToWindow(c: Limits, q: nat)
    requires LATE + c.storeTime + q * c.sendBound + c.sendBound >= WINDOW
    ensures LATE + Min(c.storeTime, WINDOW) + q * Min(c.sendBound, WINDOW) + Min(c.sendBound, WINDOW) >= WINDOW
  {
  }

  lemma WavesFit(c: Limits, q: nat)
    requires Proper(c) && q <= (c.batch - 1) / c.limit
    ensures q * c.limit < c.batch
  {
    MulMonotone(c.limit, q, (c.batch - 1) / c.limit);
  }

  lemma MulMonotone(n: nat, x: nat, y: nat)
    requires x <= y
    ensures x * n <= y * n
  {
  }

  /** With any number of workers, the stale requeue never releases an open claim if and only if
      ceil(batch / limit) Send bounds and the store time stay within 45 minutes less one second. */
  lemma WindowExactly(c: Limits)
    requires Proper(c)
    ensures AlwaysExclusive(c) <==> ClaimLife(c) <= WINDOW - NANOS
  {
    if ClaimLife(c) <= WINDOW - NANOS {
      hide Exclusive, Paced, ClaimLife;
      StartIsPaced(c);
      StartIsExclusive();
      forall s | Reaches(c, START, s) ensures Exclusive(s) {
        var evs :| TimedRuns(c, START, evs) && TimedExec(c, START, evs) == s;
        TimedRunInv(c, START, evs);
      }
    } else {
      hide Exclusive, Reaches;
      var most := (c.batch - 1) / c.limit;
      var (delay, b) := (Min(c.storeTime, WINDOW), Min(c.sendBound, WINDOW));
      assert (most + 1) * c.sendBound == most * c.sendBound + c.sendBound;
      CutToWindow(c, most);
      var q := FewestWaves(most, delay, b);
      WavesFit(c, q);
      var e := Email(0, 0, "", "to@example.com", "", "", "", "", "", "", "", "", Queued, 0, "", "", "", false, "", "");
      var s := Overlap(c, q, delay, b, e);
    }
  }

  lemma StartIsExclusive()
    ensures Exclusive(START)
  {
  }

  /** With the 30 minutes of one Send and at most a quarter of an hour, less a second, in the store,
      several workers are safe if and only if a whole batch fits its domain's tokens. */
  lemma OneWaveIsSafe(batch: nat, limit: nat, storeTime: nat)
    requires batch > 0 && limit > 0 && storeTime <= 900 * NANOS - NANOS
    ensures AlwaysExclusive(Limits(batch, limit, 1_800 * NANOS, storeTime)) <==> batch <= limit
  {
    hide AlwaysExclusive;
    var c := Limits(batch, limit, 1_800 * NANOS, storeTime);
    WindowExactly(c);
    var q := (batch - 1) / limit;
    if batch <= limit {
      assert q == 0;
    } else {
      assert q >= 1;
    }
  }

  /** The default settings, batches of 10 and 2 Sends per domain, do not fit the window: only the
      sequential ticks of a single worker protect a claim then. Three emails of one domain do it. */
  lemma DefaultsNeedOneWorker(storeTime: nat, e: Email) returns (s: Timed)
    requires e.apiKeyId == 0 && e.nextAttemptAt == ""
    ensures var c := Limits(10, 2, 1_800 * NANOS, storeTime);
      !AlwaysExclusive(c) && Reaches(c, START, s) && !Exclusive(s) && |s.table| == 3
  {
    hide Reaches, Exclusive;
    s := Overlap(Limits(10, 2, 1_800 * NANOS, storeTime), 1, 0, 1_800 * NANOS, e);
  }
}
