/** Several workers on one database. Sequential ticks then no longer protect a claim, only time
    does: the 45 minute window of the stale requeue against the longest a claim can live
    (internal/delivery/worker.go, internal/delivery/sender.go). The machine here has a clock and
    every goroutine's wait for a token; how long a claim lives is proved of it, not assumed. */
module ManyWorkers {
  import opened Text
  import opened Calendar
  import opened TimeText
  import opened Backoff
  import opened Emails
  import opened Protocol

  // ---------------------------------------------------------------- the window

  const WINDOW := STALE_WINDOW * NANOS

  /** At time `t` the stale requeue takes back a claim made at `claimedAt`. */
  predicate TakenBack(claimedAt: Instant, t: Instant) {
    Leq(FmtTime(claimedAt), FmtTime(Cutoff(t)))
  }

  predicate Dated(t: Instant) {
    FourDigitYear(Seconds(t))
  }

  /** A claim at most 45 minutes less one second old is not stale: both stamps are cut to the
      second, so the second is needed. */
  lemma YoungClaimIsKept(claimedAt: Instant, t: Instant)
    requires claimedAt <= t <= claimedAt + WINDOW - NANOS && WINDOW <= t && Dated(t)
    ensures !TakenBack(claimedAt, t)
  {
    hide FmtSeconds, FourDigitYear, Leq;
    SecondsMonotone(Seconds(claimedAt), Seconds(t));
    SecondsMonotone(Seconds(Cutoff(t)), Seconds(t));
    FmtOrder(Seconds(claimedAt), Seconds(Cutoff(t)));
    EarlierSecond(Cutoff(t), claimedAt);
  }

  lemma EarlierSecond(a: Instant, b: Instant)
    requires a + NANOS <= b
    ensures Seconds(a) < Seconds(b)
  {
  }

  lemma DatedBefore(a: Instant, b: Instant)
    requires a <= b && Dated(b)
    ensures Dated(a)
  {
    SecondsMonotone(Seconds(a), Seconds(b));
  }

  lemma NotYetStale(claimedAt: Instant, now: Instant, clock: Instant)
    requires WINDOW <= now < claimedAt <= clock && Dated(clock)
    ensures !TakenBack(claimedAt, now)
  {
    hide FmtSeconds, FourDigitYear, Leq;
    SecondsMonotone(Seconds(claimedAt), Seconds(clock));
    SecondsMonotone(Seconds(Cutoff(now)), Seconds(clock));
    FmtOrder(Seconds(claimedAt), Seconds(Cutoff(now)));
    EarlierSecond(Cutoff(now), claimedAt);
  }

  // ---------------------------------------------------------------- the timed system

  /** Batch size, tokens per recipient domain, the longest a token is held (one Send with the
      statements around it), and the longest from reading a tick's clock to the end of its claim. */
  datatype Limits = Limits(batch: nat, limit: nat, sendBound: nat, storeTime: nat)

  predicate Proper(c: Limits) {
    c.batch > 0 && c.limit > 0
  }

  /** ceil(batch / limit) Sends one after the other, plus the time in the store. */
  function ClaimLife(c: Limits): nat
    requires Proper(c)
  {
    ((c.batch - 1) / c.limit + 1) * c.sendBound + c.storeTime
  }

  /** A goroutine waits for its domain's token, works with it from some time on, has written its
      outcome and still holds it, or has ended. */
  datatype Stage = AtToken | Working(since: Instant) | Leaving(since: Instant) | Ended

  datatype Flight = Flight(worker: nat, id: nat, snap: Email, claimedAt: Instant, stage: Stage)

  datatype Timed = Timed(table: Table, flights: seq<Flight>, clock: Instant)

  const START := Timed([], [], 0)

  /** The claim is open: its outcome is not written yet. */
  predicate Live(f: Flight) {
    f.stage.AtToken? || f.stage.Working?
  }

  predicate Occupies(f: Flight) {
    f.stage.Working? || f.stage.Leaving?
  }

  function Domain(f: Flight): string {
    RcptDomain(f.snap.to)
  }

  /** The goroutines of this worker that hold a token of this domain. */
  function TokenHolders(flights: seq<Flight>, worker: nat, domain: string): set<nat> {
    set k: nat | k < |flights| && Occupies(flights[k]) && flights[k].worker == worker && Domain(flights[k]) == domain
  }

  /** The worker has no tick under way. */
  predicate Resting(flights: seq<Flight>, worker: nat) {
    forall k :: 0 <= k < |flights| ==> flights[k].worker == worker ==> flights[k].stage == Ended
  }

  /** Statements run at the time of `clock`; the times inside them were read earlier. */
  datatype Event =
    | Advance(t: Instant)
    | StaleRequeue(worker: nat, now: Instant)
    | ClaimRows(worker: nat, ids: seq<nat>, now: Instant)
    | TakeToken(k: nat)
    | WriteOutcome(k: nat, outcome: Outcome, text: string, ok: bool)
    | GiveToken(k: nat)
    | AddEmail(e: Email, at: string)
    | CancelOne(id: nat)
    | RequeueOne(id: nat, newTo: string, newToName: string, at: string)
    | WorkerDies(worker: nat)

  /** Time may pass until `t` for this goroutine: it waits only while all tokens of its domain are
      taken, and holds a token no longer than the bound. */
  predicate MayLast(c: Limits, flights: seq<Flight>, f: Flight, t: Instant) {
    match f.stage
    case AtToken => |TokenHolders(flights, f.worker, Domain(f))| >= c.limit
    case Working(since) => t <= since + c.sendBound
    case Leaving(since) => t <= since + c.sendBound
    case Ended => true
  }

  predicate ReadLately(c: Limits, s: Timed, now: Instant) {
    now <= s.clock <= now + c.storeTime
  }

  ghost predicate Possible(c: Limits, s: Timed, ev: Event) {
    match ev
    case Advance(t) =>
      s.clock <= t && Dated(t) && forall k :: 0 <= k < |s.flights| ==> MayLast(c, s.flights, s.flights[k], t)
    case StaleRequeue(worker, now) => Resting(s.flights, worker) && ReadLately(c, s, now) && WINDOW <= now
    case ClaimRows(worker, ids, now) =>
      Resting(s.flights, worker) && ReadLately(c, s, now) && IsClaim(s.table, ids, c.batch, FmtTime(now))
    case TakeToken(k) =>
      && k < |s.flights| && s.flights[k].stage.AtToken?
      && |TokenHolders(s.flights, s.flights[k].worker, Domain(s.flights[k]))| < c.limit
    case WriteOutcome(k, o, text, ok) =>
      k < |s.flights| && s.flights[k].stage.Working? && s.flights[k].id < |s.table|
    case GiveToken(k) => k < |s.flights| && s.flights[k].stage.Leaving?
    case AddEmail(e, at) => !KeyTaken(s.table, e.apiKeyId, e.idempotencyKey)
    case CancelOne(id) => true
    case RequeueOne(id, newTo, newToName, at) => true
    case WorkerDies(worker) => true
  }

  function NewFlights(worker: nat, t: Table, ids: seq<nat>, now: Instant): seq<Flight>
    requires forall k :: 0 <= k < |ids| ==> ids[k] < |t|
  {
    seq(|ids|, k requires 0 <= k < |ids| => Flight(worker, ids[k], t[ids[k]], now, AtToken))
  }

  function Staged(flights: seq<Flight>, k: nat, stage: Stage): seq<Flight>
    requires k < |flights|
  {
    flights[k := flights[k].(stage := stage)]
  }

  function Dead(flights: seq<Flight>, worker: nat): seq<Flight> {
    seq(|flights|, k requires 0 <= k < |flights| =>
      if flights[k].worker == worker then flights[k].(stage := Ended) else flights[k])
  }

  ghost function Happen(c: Limits, s: Timed, ev: Event): Timed
    requires Possible(c, s, ev)
  {
    match ev
    case Advance(t) => s.(clock := t)
    case StaleRequeue(worker, now) => s.(table := StaleReleased(s.table, FmtTime(Cutoff(now))))
    case ClaimRows(worker, ids, now) =>
      ClaimInRange(s.table, ids, c.batch, FmtTime(now));
      var t := Claimed(s.table, ids, FmtTime(now));
      s.(table := t, flights := s.flights + NewFlights(worker, t, ids, now))
    case TakeToken(k) => s.(flights := Staged(s.flights, k, Working(s.clock)))
    case WriteOutcome(k, o, text, ok) =>
      var f := s.flights[k];
      s.(table := if ok then s.table[f.id := OutcomeRow(s.table[f.id], f.snap, f.claimedAt, o, text)] else s.table,
         flights := Staged(s.flights, k, Leaving(f.stage.since)))
    case GiveToken(k) => s.(flights := Staged(s.flights, k, Ended))
    case AddEmail(e, at) => s.(table := s.table + [NewRow(e, at)])
    case CancelOne(id) => s.(table := Cancelled(s.table, id))
    case RequeueOne(id, newTo, newToName, at) => s.(table := Requeued(s.table, id, newTo, newToName, at))
    case WorkerDies(worker) => s.(flights := Dead(s.flights, worker))
  }

  ghost predicate TimedRuns(c: Limits, s: Timed, evs: seq<Event>)
    decreases |evs|
  {
    evs == [] || (Possible(c, s, evs[0]) && TimedRuns(c, Happen(c, s, evs[0]), evs[1..]))
  }

  ghost function TimedExec(c: Limits, s: Timed, evs: seq<Event>): Timed
    requires TimedRuns(c, s, evs)
    decreases |evs|
  {
    if evs == [] then s else TimedExec(c, Happen(c, s, evs[0]), evs[1..])
  }

  // ---------------------------------------------------------------- how long a claim lives

  /** The goroutine had no token yet at time `x`. */
  predicate Late(f: Flight, x: Instant) {
    f.stage.AtToken? || (Occupies(f) && f.stage.since > x)
  }

  function LateOnes(flights: seq<Flight>, worker: nat, domain: string, x: Instant): set<nat> {
    set k: nat | k < |flights| && Late(flights[k], x) && flights[k].worker == worker && Domain(flights[k]) == domain
  }

  function Unended(flights: seq<Flight>, worker: nat): set<nat> {
    set k: nat | k < |flights| && flights[k].stage != Ended && flights[k].worker == worker
  }

  /** The latest start of the m-th wave of Sends of a claim. */
  function WaveStart(c: Limits, claimedAt: Instant, m: nat): Instant {
    claimedAt + c.storeTime + m * c.sendBound
  }

  /** The goroutines of a domain that m + 1 full waves let through. */
  function Through(c: Limits, m: nat): nat {
    (m + 1) * c.limit
  }

  /** Throughput: after the start of wave m, either nobody of the domain had to wait beyond it, or
      m + 1 full waves got their tokens by then. */
  predicate Served(c: Limits, s: Timed, f: Flight, m: nat) {
    var x := WaveStart(c, f.claimedAt, m);
    var late := LateOnes(s.flights, f.worker, Domain(f), x);
    s.clock > x ==> late == {} || |late| + Through(c, m) <= c.batch
  }

  predicate Consistent(c: Limits, s: Timed, f: Flight) {
    && f.id < |s.table| && f.snap.status == Sending && f.snap.nextAttemptAt == FmtTime(f.claimedAt)
    && f.claimedAt <= s.clock
    && (Occupies(f) ==> f.stage.since <= s.clock <= f.stage.since + c.sendBound)
  }

  ghost predicate OneTick(flights: seq<Flight>) {
    forall k, m :: 0 <= k < |flights| && 0 <= m < |flights| && flights[k].stage != Ended && flights[m].stage != Ended
      ==> flights[k].worker == flights[m].worker ==> flights[k].claimedAt == flights[m].claimedAt
  }

  ghost predicate InTime(c: Limits, s: Timed) {
    forall k: nat, m: nat :: k < |s.flights| && s.flights[k].stage != Ended ==> Served(c, s, s.flights[k], m)
  }

  /** What every event keeps about the pace of the goroutines. */
  ghost predicate Paced(c: Limits, s: Timed) {
    && Dated(s.clock)
    && (forall k :: 0 <= k < |s.flights| ==> Consistent(c, s, s.flights[k]))
    && OneTick(s.flights)
    && (forall w: nat :: |Unended(s.flights, w)| <= c.batch)
    && InTime(c, s)
  }

  lemma SubsetSize(a: set<nat>, b: set<nat>)
    requires a <= b
    ensures |a| <= |b|
  {
    assert b == a + (b - a);
  }

  lemma DisjointSize(a: set<nat>, b: set<nat>, whole: set<nat>)
    requires a !! b && a + b <= whole
    ensures |a| + |b| <= |whole|
  {
    assert |a + b| == |a| + |b|;
    SubsetSize(a + b, whole);
  }

  lemma NextWave(c: Limits, claimedAt: Instant, m: nat)
    ensures WaveStart(c, claimedAt, m + 1) == WaveStart(c, claimedAt, m) + c.sendBound
    ensures Through(c, m + 1) == Through(c, m) + c.limit
    ensures Through(c, 0) == c.limit && WaveStart(c, claimedAt, 0) == claimedAt + c.storeTime <= WaveStart(c, claimedAt, m)
  {
    assert (m + 1) * c.sendBound == m * c.sendBound + c.sendBound;
    assert (m + 2) * c.limit == (m + 1) * c.limit + c.limit;
  }

  lemma ServedAt(c: Limits, s: Timed, k: nat, m: nat)
    requires InTime(c, s) && k < |s.flights| && s.flights[k].stage != Ended
    ensures Served(c, s, s.flights[k], m)
  {
  }

  /** While goroutine `j` waits until `t`, all tokens are held, by others that started no longer than
      one bound before. */
  lemma HoldersStarted(c: Limits, s: Timed, t: Instant, j: nat)
    requires Possible(c, s, Advance(t)) && j < |s.flights| && s.flights[j].stage.AtToken?
    ensures var holders := TokenHolders(s.flights, s.flights[j].worker, Domain(s.flights[j]));
      && |holders| >= c.limit
      && forall h :: h in holders ==> t <= s.flights[h].stage.since + c.sendBound
  {
    hide RcptDomain, Dated;
    assert MayLast(c, s.flights, s.flights[j], t);
    var holders := TokenHolders(s.flights, s.flights[j].worker, Domain(s.flights[j]));
    forall h | h in holders ensures t <= s.flights[h].stage.since + c.sendBound {
      assert MayLast(c, s.flights, s.flights[h], t);
    }
  }

  /** The holders are not late themselves: they started by now. */
  lemma FirstWave(c: Limits, s: Timed, worker: nat, domain: string, x: Instant, holders: set<nat>)
    requires holders == TokenHolders(s.flights, worker, domain) && |holders| >= c.limit && s.clock <= x
    requires |Unended(s.flights, worker)| <= c.batch
    requires forall k :: 0 <= k < |s.flights| ==> Consistent(c, s, s.flights[k])
    ensures |LateOnes(s.flights, worker, domain, x)| + c.limit <= c.batch
  {
    hide RcptDomain, FmtTime;
    var late := LateOnes(s.flights, worker, domain, x);
    forall h | h in holders ensures h !in late {
      assert Consistent(c, s, s.flights[h]);
    }
    DisjointSize(late, holders, Unended(s.flights, worker));
  }

  /** One wave earlier they were late, together with those that still wait. */
  lemma LaterWave(c: Limits, s: Timed, worker: nat, domain: string, y: Instant, x: Instant, holders: set<nat>, j: nat)
    requires holders == TokenHolders(s.flights, worker, domain) && |holders| >= c.limit > 0 && y <= x && s.clock <= x
    requires forall k :: 0 <= k < |s.flights| ==> Consistent(c, s, s.flights[k])
    requires forall h :: h in holders ==> s.flights[h].stage.since > y
    requires j in LateOnes(s.flights, worker, domain, x)
    ensures s.clock > y && j in LateOnes(s.flights, worker, domain, y)
    ensures |LateOnes(s.flights, worker, domain, x)| + c.limit <= |LateOnes(s.flights, worker, domain, y)|
  {
    hide RcptDomain, FmtTime;
    var late, before := LateOnes(s.flights, worker, domain, x), LateOnes(s.flights, worker, domain, y);
    forall h | h in holders ensures h !in late && h in before {
      assert Consistent(c, s, s.flights[h]);
    }
    assert holders != {};
    var h :| h in holders;
    assert Consistent(c, s, s.flights[h]);
    DisjointSize(late, holders, before);
  }

  /** As long as somebody waits, each bound lets another `limit` goroutines through. */
  lemma ClockKeepsTime(c: Limits, s: Timed, t: Instant, k: nat, m: nat)
    requires Proper(c) && Paced(c, s) && Possible(c, s, Advance(t)) && k < |s.flights| && s.flights[k].stage != Ended
    ensures Served(c, s.(clock := t), s.flights[k], m)
  {
    hide RcptDomain, FmtTime, Dated, WaveStart, Through, Possible, InTime, MayLast, TokenHolders, OneTick;
    var f := s.flights[k];
    var x := WaveStart(c, f.claimedAt, m);
    var late := LateOnes(s.flights, f.worker, Domain(f), x);
    ServedAt(c, s, k, m);
    if s.clock <= x < t && late != {} {
      var j :| j in late;
      assert Consistent(c, s, s.flights[j]);
      assert s.flights[j].stage.AtToken?;
      HoldersStarted(c, s, t, j);
      var holders := TokenHolders(s.flights, f.worker, Domain(f));
      if m == 0 {
        FirstWave(c, s, f.worker, Domain(f), x, holders);
      } else {
        NextWave(c, f.claimedAt, m - 1);
        ServedAt(c, s, k, m - 1);
        LaterWave(c, s, f.worker, Domain(f), WaveStart(c, f.claimedAt, m - 1), x, holders, j);
      }
      NextWave(c, f.claimedAt, m);
    }
  }

  lemma AdvanceKeepsPace(c: Limits, s: Timed, t: Instant)
    requires Proper(c) && Paced(c, s) && Possible(c, s, Advance(t))
    ensures Paced(c, Happen(c, s, Advance(t)))
  {
    hide RcptDomain, FmtTime, Dated, Served;
    forall k: nat, m: nat | k < |s.flights| && s.flights[k].stage != Ended
      ensures Served(c, s.(clock := t), s.flights[k], m)
    {
      ClockKeepsTime(c, s, t, k, m);
    }
    forall k | 0 <= k < |s.flights|
      ensures Consistent(c, s.(clock := t), s.flights[k])
    {
      assert MayLast(c, s.flights, s.flights[k], t);
    }
  }

  /** Goroutines only move on: the rest of the flight stays, and none becomes late again. */
  ghost predicate MovesOn(s: Timed, s': Timed) {
    && s'.clock == s.clock && |s'.table| >= |s.table| && |s'.flights| == |s.flights|
    && (forall k :: 0 <= k < |s.flights| ==> s'.flights[k] == s.flights[k].(stage := s'.flights[k].stage))
    && (forall k :: 0 <= k < |s.flights| && s.flights[k].stage == Ended ==> s'.flights[k].stage == Ended)
    && (forall k :: 0 <= k < |s.flights| && Occupies(s'.flights[k]) && Occupies(s.flights[k]) ==>
          s'.flights[k].stage.since == s.flights[k].stage.since)
    && (forall k :: 0 <= k < |s.flights| && Occupies(s'.flights[k]) && !Occupies(s.flights[k]) ==>
          s.flights[k].stage.AtToken? && s'.flights[k].stage.since == s.clock)
    && (forall k :: 0 <= k < |s.flights| && s'.flights[k].stage.AtToken? ==> s.flights[k].stage.AtToken?)
  }

  lemma MovingOnServes(c: Limits, s: Timed, s': Timed, k: nat, m: nat)
    requires MovesOn(s, s') && k < |s.flights| && Served(c, s, s.flights[k], m)
    ensures Served(c, s', s'.flights[k], m)
  {
    hide RcptDomain, FmtTime, Dated, WaveStart, Through;
    var f := s.flights[k];
    var x := WaveStart(c, f.claimedAt, m);
    SubsetSize(LateOnes(s'.flights, f.worker, Domain(f), x), LateOnes(s.flights, f.worker, Domain(f), x));
  }

  lemma MovingOnKeepsPace(c: Limits, s: Timed, s': Timed)
    requires Paced(c, s) && MovesOn(s, s')
    ensures Paced(c, s')
  {
    hide RcptDomain, FmtTime, Dated, Served;
    forall k: nat, m: nat | k < |s'.flights| && s'.flights[k].stage != Ended
      ensures Served(c, s', s'.flights[k], m)
    {
      assert Served(c, s, s.flights[k], m);
      MovingOnServes(c, s, s', k, m);
    }
    forall w: nat ensures |Unended(s'.flights, w)| <= c.batch {
      SubsetSize(Unended(s'.flights, w), Unended(s.flights, w));
    }
  }

  function Interval(from: nat, n: nat): (s: set<nat>)
    ensures |s| == n && forall k: nat :: k in s <==> from <= k < from + n
  {
    if n == 0 then {} else Interval(from, n - 1) + {from + n - 1}
  }

  lemma ClaimServes(c: Limits, s: Timed, worker: nat, ids: seq<nat>, now: Instant, k: nat, m: nat)
    requires Paced(c, s) && Possible(c, s, ClaimRows(worker, ids, now))
    requires var s' := Happen(c, s, ClaimRows(worker, ids, now)); k < |s'.flights| && s'.flights[k].stage != Ended
    ensures var s' := Happen(c, s, ClaimRows(worker, ids, now)); Served(c, s', s'.flights[k], m)
  {
    hide RcptDomain, FmtTime, Dated, WaveStart, Through, Leq, IsClaim, Claimed;
    var s' := Happen(c, s, ClaimRows(worker, ids, now));
    var f := s'.flights[k];
    var x := WaveStart(c, f.claimedAt, m);
    NextWave(c, f.claimedAt, m);
    if k < |s.flights| {
      assert f == s.flights[k] && f.worker != worker;
      assert Served(c, s, f, m);
      assert LateOnes(s'.flights, f.worker, Domain(f), x) == LateOnes(s.flights, f.worker, Domain(f), x);
    }
  }

  lemma ClaimsAreConsistent(c: Limits, s: Timed, worker: nat, ids: seq<nat>, now: Instant, k: nat)
    requires Paced(c, s) && Possible(c, s, ClaimRows(worker, ids, now))
    requires k < |s.flights| + |ids|
    ensures var s' := Happen(c, s, ClaimRows(worker, ids, now));
      |s'.flights| == |s.flights| + |ids| && Consistent(c, s', s'.flights[k])
  {
    hide RcptDomain, FmtTime, Dated, Served, Leq, InTime, OneTick;
    var s' := Happen(c, s, ClaimRows(worker, ids, now));
    ClaimInRange(s.table, ids, c.batch, FmtTime(now));
    if k < |s.flights| {
      assert s'.flights[k] == s.flights[k];
      assert Consistent(c, s, s.flights[k]);
    } else {
      assert ids[k - |s.flights|] in ids;
    }
  }

  lemma ClaimFitsBatch(c: Limits, s: Timed, worker: nat, ids: seq<nat>, now: Instant, w: nat)
    requires Paced(c, s) && Possible(c, s, ClaimRows(worker, ids, now))
    ensures |Unended(Happen(c, s, ClaimRows(worker, ids, now)).flights, w)| <= c.batch
  {
    hide RcptDomain, FmtTime, Dated, Served, Leq, InTime, OneTick, DueIds, Consistent;
    var s' := Happen(c, s, ClaimRows(worker, ids, now));
    if w == worker {
      assert Unended(s'.flights, w) == Interval(|s.flights|, |ids|);
    } else {
      assert Unended(s'.flights, w) == Unended(s.flights, w);
    }
  }

  lemma ClaimIsOneTick(c: Limits, s: Timed, worker: nat, ids: seq<nat>, now: Instant)
    requires Paced(c, s) && Possible(c, s, ClaimRows(worker, ids, now))
    ensures OneTick(Happen(c, s, ClaimRows(worker, ids, now)).flights)
  {
    hide RcptDomain, FmtTime, Dated, Served, Leq, InTime, IsClaim, Consistent, Claimed;
  }

  lemma ClaimKeepsPace(c: Limits, s: Timed, worker: nat, ids: seq<nat>, now: Instant)
    requires Paced(c, s) && Possible(c, s, ClaimRows(worker, ids, now))
    ensures Paced(c, Happen(c, s, ClaimRows(worker, ids, now)))
  {
    hide RcptDomain, FmtTime, Dated, Served, Leq, IsClaim, Consistent, OneTick, Unended, Claimed;
    var s' := Happen(c, s, ClaimRows(worker, ids, now));
    forall k: nat, m: nat | k < |s'.flights| && s'.flights[k].stage != Ended
      ensures Served(c, s', s'.flights[k], m)
    {
      ClaimServes(c, s, worker, ids, now, k, m);
    }
    forall w: nat ensures |Unended(s'.flights, w)| <= c.batch {
      ClaimFitsBatch(c, s, worker, ids, now, w);
    }
    ClaimIsOneTick(c, s, worker, ids, now);
    forall k | 0 <= k < |s'.flights| ensures Consistent(c, s', s'.flights[k]) {
      ClaimsAreConsistent(c, s, worker, ids, now, k);
    }
  }

  predicate IsMove(ev: Event) {
    ev.TakeToken? || ev.WriteOutcome? || ev.GiveToken? || ev.WorkerDies?
  }

  lemma EventsMoveOn(c: Limits, s: Timed, ev: Event)
    requires Possible(c, s, ev) && !ev.Advance? && !ev.ClaimRows?
    ensures MovesOn(s, Happen(c, s, ev))
    ensures !IsMove(ev) ==> Happen(c, s, ev).flights == s.flights
  {
    hide Leq, FmtTime, NewRow, RequeuedRow, OutcomeRow, TokenHolders, KeyTaken, Released;
    match ev
    case StaleRequeue(worker, now) =>
    case _ =>
  }

  lemma EventKeepsPace(c: Limits, s: Timed, ev: Event)
    requires Proper(c) && Paced(c, s) && Possible(c, s, ev)
    ensures Paced(c, Happen(c, s, ev))
  {
    hide Paced, Possible, Happen, MovesOn;
    match ev
    case Advance(t) => AdvanceKeepsPace(c, s, t);
    case ClaimRows(worker, ids, now) => ClaimKeepsPace(c, s, worker, ids, now);
    case _ =>
      EventsMoveOn(c, s, ev);
      MovingOnKeepsPace(c, s, Happen(c, s, ev));
  }

  /** In a well-paced state every goroutine of a tick is within the life of a claim: it has its token
      after ceil(batch / limit) - 1 waves at the latest and ends after one more. */
  lemma PacedClaimsAreShort(c: Limits, s: Timed, k: nat)
    requires Proper(c) && Paced(c, s) && k < |s.flights| && s.flights[k].stage != Ended
    ensures s.clock <= s.flights[k].claimedAt + ClaimLife(c)
  {
    hide RcptDomain, FmtTime, Dated;
    var (f, q) := (s.flights[k], (c.batch - 1) / c.limit);
    var x := WaveStart(c, f.claimedAt, q);
    assert Through(c, q) >= c.batch;
    NextWave(c, f.claimedAt, q);
    assert Served(c, s, f, q);
    assert Consistent(c, s, f);
    if s.clock > x {
      assert k !in LateOnes(s.flights, f.worker, Domain(f), x);
    }
  }

  lemma StartIsPaced(c: Limits)
    ensures Paced(c, START)
  {
    assert DateOf(0).month == 0;
    forall w: nat ensures |Unended(START.flights, w)| <= c.batch {
      assert Unended(START.flights, w) == {};
    }
  }

  lemma {:induction false} RunKeepsPace(c: Limits, s: Timed, evs: seq<Event>)
    requires Proper(c) && Paced(c, s) && TimedRuns(c, s, evs)
    ensures Paced(c, TimedExec(c, s, evs))
    decreases |evs|
  {
    if evs != [] {
      EventKeepsPace(c, s, evs[0]);
      hide Possible, Happen, Paced;
      RunKeepsPace(c, Happen(c, s, evs[0]), evs[1..]);
    }
  }

  /** Over every timed run, with any number of workers, no goroutine lives longer than the life of
      a claim: ceil(batch / limit) Send bounds and the store time. */
  lemma ClaimsAreShort(c: Limits, evs: seq<Event>, k: nat)
    requires Proper(c) && TimedRuns(c, START, evs)
    requires k < |TimedExec(c, START, evs).flights| && TimedExec(c, START, evs).flights[k].stage != Ended
    ensures var s := TimedExec(c, START, evs); s.clock <= s.flights[k].claimedAt + ClaimLife(c)
  {
    hide Paced;
    StartIsPaced(c);
    RunKeepsPace(c, START, evs);
    PacedClaimsAreShort(c, TimedExec(c, START, evs), k);
  }

  // ---------------------------------------------------------------- safety below the window

  /** No two open claims are of one email, and each still owns its row. */
  ghost predicate Exclusive(s: Timed) {
    && (forall k :: 0 <= k < |s.flights| && Live(s.flights[k]) ==>
          s.flights[k].id < |s.table| && s.table[s.flights[k].id] == s.flights[k].snap)
    && (forall k, m :: 0 <= k < m < |s.flights| && Live(s.flights[k]) && Live(s.flights[m]) ==>
          s.flights[k].id != s.flights[m].id)
  }

  lemma StaleRequeueKeeps(c: Limits, s: Timed, worker: nat, now: Instant)
    requires Proper(c) && Paced(c, s) && Exclusive(s) && ClaimLife(c) <= WINDOW - NANOS
    requires Possible(c, s, StaleRequeue(worker, now))
    ensures Exclusive(Happen(c, s, StaleRequeue(worker, now)))
  {
    hide Leq, FmtTime, Dated, ClaimLife, InTime;
    forall k | 0 <= k < |s.flights| && Live(s.flights[k])
      ensures !Stale(s.flights[k].snap, FmtTime(Cutoff(now)))
    {
      var f := s.flights[k];
      assert Consistent(c, s, f);
      PacedClaimsAreShort(c, s, k);
      if now < f.claimedAt {
        NotYetStale(f.claimedAt, now, s.clock);
      } else {
        DatedBefore(now, s.clock);
        YoungClaimIsKept(f.claimedAt, now);
      }
    }
  }

  lemma ClaimKeeps(c: Limits, s: Timed, worker: nat, ids: seq<nat>, now: Instant)
    requires Paced(c, s) && Exclusive(s) && Possible(c, s, ClaimRows(worker, ids, now))
    ensures Exclusive(Happen(c, s, ClaimRows(worker, ids, now)))
  {
    hide Leq, FmtTime, Dated, InTime;
    ClaimInRange(s.table, ids, c.batch, FmtTime(now));
    forall k | 0 <= k < |s.flights| && Live(s.flights[k])
      ensures s.flights[k].id !in ids
    {
      assert Consistent(c, s, s.flights[k]);
    }
  }

  /** Rows change only where no claim is open, and where one ends. */
  lemma OthersKeep(c: Limits, s: Timed, ev: Event)
    requires Paced(c, s) && Exclusive(s) && Possible(c, s, ev)
    requires !ev.StaleRequeue? && !ev.ClaimRows? && !IsMove(ev)
    ensures Exclusive(Happen(c, s, ev))
  {
    hide Leq, FmtTime, NewRow, RequeuedRow, InTime, OneTick, MayLast, Dated, KeyTaken;
    assert forall k :: 0 <= k < |s.flights| ==> Consistent(c, s, s.flights[k]);
  }

  lemma MovesKeep(c: Limits, s: Timed, ev: Event)
    requires Exclusive(s) && Possible(c, s, ev) && IsMove(ev)
    ensures Exclusive(Happen(c, s, ev))
  {
    hide OutcomeRow, TokenHolders;
  }

  lemma EventKeeps(c: Limits, s: Timed, ev: Event)
    requires Proper(c) && Paced(c, s) && Exclusive(s) && ClaimLife(c) <= WINDOW - NANOS && Possible(c, s, ev)
    ensures Exclusive(Happen(c, s, ev))
  {
    hide Paced, Exclusive, Possible, Happen, ClaimLife;
    match ev
    case StaleRequeue(worker, now) => StaleRequeueKeeps(c, s, worker, now);
    case ClaimRows(worker, ids, now) => ClaimKeeps(c, s, worker, ids, now);
    case _ =>
      if IsMove(ev) {
        MovesKeep(c, s, ev);
      } else {
        OthersKeep(c, s, ev);
      }
  }

  /** With any number of workers, claims that are short enough stay exclusive over every run. */
  lemma {:induction false} TimedRunInv(c: Limits, s: Timed, evs: seq<Event>)
    requires Proper(c) && Paced(c, s) && Exclusive(s) && TimedRuns(c, s, evs) && ClaimLife(c) <= WINDOW - NANOS
    ensures Paced(c, TimedExec(c, s, evs)) && Exclusive(TimedExec(c, s, evs))
    decreases |evs|
  {
    if evs != [] {
      EventKeepsPace(c, s, evs[0]);
      EventKeeps(c, s, evs[0]);
      hide Possible, Happen, Paced, Exclusive;
      TimedRunInv(c, Happen(c, s, evs[0]), evs[1..]);
    }
  }
}
