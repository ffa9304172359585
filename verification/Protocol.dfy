/** The delivery protocol: one worker, any number of API and admin requests, the notifier's
    failure callback and process crashes, interleaved statement by statement over one database
    (internal/delivery/worker.go, internal/store/emails.go).

    A state is the database plus the worker's memory plus a history that no step reads. `Enabled`
    says when a step can happen and `Apply` what it does; everything nondeterministic (which due
    rows the database returns, what a Send reports, whether a write fails) is in the label. */
module Protocol {
  import opened Text
  import opened TimeText
  import opened Backoff
  import opened Emails

  datatype Config = Config(batchSize: nat, perDomainLimit: nat)

  /** The defaults of a zero setting. */
  function Batch(c: Config): nat {
    if c.batchSize == 0 then 10 else c.batchSize
  }

  function Limit(c: Config): nat {
    if c.perDomainLimit == 0 then 2 else c.perDomainLimit
  }

  const STALE_WINDOW := 2_700 // 45 minutes, in seconds

  function Cutoff(now: Instant): Instant {
    if now < STALE_WINDOW * NANOS then 0 else now - STALE_WINDOW * NANOS
  }

  function RcptDomain(to: string): string {
    Lower(AfterAt(to))
  }

  // ---------------------------------------------------------------- state

  /** What a Send reports, classified. A panic in Send and a failed domain lookup are handled
      like a temporary error. */
  datatype Outcome = Accepted | Temporary | Permanent

  /** Where a delivery goroutine stands: it gets its domain's channel, waits for a token, loads the
      sender's domain and sends, records the attempt, writes the outcome, reports a permanent
      failure, gives the token back. */
  datatype Phase =
    | Spawned
    | Waiting
    | Holding
    | InSend
    | Returned(outcome: Outcome)
    | Recorded(outcome: Outcome)
    | Notifying
    | Releasing
    | Finished

  /** `snap` is the row as ClaimDue returned it. */
  datatype Job = Job(id: nat, snap: Email, phase: Phase)

  datatype WorkerPc = Idle | Claiming | Delivering

  /** History of one email: the address it was enqueued with; the Sends that reported success; those
      of them whose outcome write failed or was cut off by a crash; the second of the tick that
      made the first attempt since the last reset of `attempts`. */
  datatype Hist = Hist(firstTo: string, accepted: nat, lost: nat, start: nat)

  datatype State = State(
    table: Table,
    pending: set<nat>,
    worker: WorkerPc,
    now: Instant,
    jobs: seq<Job>,
    sems: map<string, nat>,
    hist: seq<Hist>)

  const INITIAL := State([], {}, Idle, 0, [], map[], [])

  datatype ClaimFate = Delivered | Refused | RowsLost

  /** What a goroutine does between its claim and its outcome write, and after it. */
  datatype Action =
    | GetSem
    | Acquire
    | SendStart
    | DomainFails
    | SendEnd(outcome: Outcome)
    | Record
    | Notify(ok: bool)
    | Release

  datatype Label =
    | Enqueue(e: Email, at: string)
    | Cancel(id: nat)
    | Requeue(id: nat, newTo: string, newToName: string, at: string)
    | TickStart(now: Instant, ok: bool)
    | Claim(ids: seq<nat>, fate: ClaimFate)
    | Go(j: nat, action: Action)
    | Mark(j: nat, ok: bool, text: string)
    | TickEnd
    | Crash

  // ---------------------------------------------------------------- goroutines

  /** The goroutine still has to write its outcome to its row. */
  predicate Unmarked(p: Phase) {
    !(p.Notifying? || p.Releasing? || p.Finished?)
  }

  /** The goroutine holds a token of its domain's channel. */
  predicate HoldsToken(p: Phase) {
    !(p.Spawned? || p.Waiting? || p.Finished?)
  }

  /** A Send reported success and the outcome is not written yet. */
  predicate AcceptedUnwritten(p: Phase) {
    (p.Returned? || p.Recorded?) && p.outcome == Accepted
  }

  function DomainOf(j: Job): string {
    RcptDomain(j.snap.to)
  }

  function Holders(jobs: seq<Job>, domain: string): nat {
    if jobs == [] then 0
    else Holders(jobs[..|jobs| - 1], domain)
         + if HoldsToken(jobs[|jobs| - 1].phase) && DomainOf(jobs[|jobs| - 1]) == domain then 1 else 0
  }

  function Tokens(sems: map<string, nat>, domain: string): nat {
    if domain in sems then sems[domain] else 0
  }

  /** The outcome ends the email for good: a permanent error, or the schedule is used up. */
  predicate GivesUp(snap: Email, now: Instant, o: Outcome) {
    o == Permanent || (o == Temporary && NextAttempt(snap.attempts + 1, now).None?)
  }

  /** The row an outcome write leaves, `row` being the current row and `snap` the claimed one. */
  function OutcomeRow(row: Email, snap: Email, now: Instant, o: Outcome, text: string): Email {
    match o
    case Accepted => SentRow(row, text)
    case Permanent => FailedRow(row, text)
    case Temporary =>
      match NextAttempt(snap.attempts + 1, now)
      case Some(next) => RetryRow(row, FmtTime(next), text)
      case None => FailedRow(row, "retries exhausted: " + text)
  }

  function Spawn(t: Table, ids: seq<nat>): seq<Job>
    requires forall k :: 0 <= k < |ids| ==> ids[k] < |t|
  {
    seq(|ids|, k requires 0 <= k < |ids| => Job(ids[k], t[ids[k]], Spawned))
  }

  ghost predicate AcceptedInFlight(jobs: seq<Job>, id: nat) {
    exists j :: 0 <= j < |jobs| && jobs[j].id == id && AcceptedUnwritten(jobs[j].phase)
  }

  // ---------------------------------------------------------------- steps

  ghost predicate JobAt(s: State, j: nat) {
    s.worker == Delivering && j < |s.jobs| && s.jobs[j].id < |s.table| == |s.hist|
  }

  predicate CanGo(c: Config, sems: map<string, nat>, job: Job, a: Action) {
    match a
    case GetSem => job.phase == Spawned
    case Acquire => job.phase == Waiting && Tokens(sems, DomainOf(job)) < Limit(c)
    case SendStart => job.phase == Holding
    case DomainFails => job.phase == Holding
    case SendEnd(o) => job.phase == InSend
    case Record => job.phase.Returned?
    case Notify(ok) => job.phase == Notifying
    case Release => job.phase == Releasing && Tokens(sems, DomainOf(job)) > 0
  }

  function NextPhase(p: Phase, a: Action): Phase {
    match a
    case GetSem => Waiting
    case Acquire => Holding
    case SendStart => InSend
    case DomainFails => Returned(Temporary)
    case SendEnd(o) => Returned(o)
    case Record => if p.Returned? then Recorded(p.outcome) else p
    case Notify(ok) => Releasing
    case Release => Finished
  }

  /** The channel map after the action: created on first use, one token put in or taken out. */
  function SemsAfter(sems: map<string, nat>, domain: string, a: Action): map<string, nat> {
    match a
    case GetSem => sems[domain := Tokens(sems, domain)]
    case Acquire => sems[domain := Tokens(sems, domain) + 1]
    case Release => if Tokens(sems, domain) > 0 then sems[domain := Tokens(sems, domain) - 1] else sems
    case _ => sems
  }

  function HistAfter(h: Hist, a: Action): Hist {
    if a == SendEnd(Accepted) then h.(accepted := h.accepted + 1) else h
  }

  ghost function Gone(s: State, j: nat, a: Action): State
    requires JobAt(s, j)
  {
    var job := s.jobs[j];
    s.(jobs := s.jobs[j := job.(phase := NextPhase(job.phase, a))],
       sems := SemsAfter(s.sems, DomainOf(job), a),
       hist := s.hist[job.id := HistAfter(s.hist[job.id], a)],
       pending := s.pending + if a == Notify(true) && !s.table[job.id].isSystem then {job.id} else {})
  }

  function HistMarked(h: Hist, snap: Email, now: Instant, o: Outcome, ok: bool): Hist {
    if ok then (if snap.attempts == 0 then h.(start := Seconds(now)) else h)
    else (if o == Accepted then h.(lost := h.lost + 1) else h)
  }

  ghost function Marked(s: State, j: nat, ok: bool, text: string): State
    requires JobAt(s, j) && s.jobs[j].phase.Recorded?
  {
    var job := s.jobs[j];
    var o := job.phase.outcome;
    s.(jobs := s.jobs[j := job.(phase := if GivesUp(job.snap, s.now, o) then Notifying else Releasing)],
       table := if ok then s.table[job.id := OutcomeRow(s.table[job.id], job.snap, s.now, o, text)] else s.table,
       hist := s.hist[job.id := HistMarked(s.hist[job.id], job.snap, s.now, o, ok)])
  }

  ghost function Crashed(s: State): State {
    s.(worker := Idle, jobs := [], sems := map[],
       hist := seq(|s.hist|, i requires 0 <= i < |s.hist| =>
                 if AcceptedInFlight(s.jobs, i) then s.hist[i].(lost := s.hist[i].lost + 1) else s.hist[i]))
  }

  ghost function AfterClaim(s: State, ids: seq<nat>, fate: ClaimFate): State
    requires forall k :: 0 <= k < |ids| ==> ids[k] < |s.table|
  {
    var t := Claimed(s.table, ids, FmtTime(s.now));
    match fate
    case Refused => s.(worker := Idle)
    case RowsLost => s.(worker := Idle, table := t)
    case Delivered => s.(worker := Delivering, table := t, jobs := Spawn(t, ids), sems := map[])
  }

  ghost predicate Enabled(c: Config, s: State, l: Label) {
    match l
    case Enqueue(e, at) => !KeyTaken(s.table, e.apiKeyId, e.idempotencyKey)
    case Cancel(id) => true
    case Requeue(id, newTo, newToName, at) => true
    case TickStart(now, ok) => s.worker == Idle && FourDigitYear(Seconds(now) + 86_400)
    case Claim(ids, fate) => s.worker == Claiming && IsClaim(s.table, ids, Batch(c), FmtTime(s.now))
    case Go(j, a) => JobAt(s, j) && CanGo(c, s.sems, s.jobs[j], a)
    case Mark(j, ok, text) => JobAt(s, j) && s.jobs[j].phase.Recorded?
    case TickEnd => s.worker == Delivering && forall j :: 0 <= j < |s.jobs| ==> s.jobs[j].phase == Finished
    case Crash => true
  }

  ghost function Apply(c: Config, s: State, l: Label): State
    requires Enabled(c, s, l)
  {
    match l
    case Enqueue(e, at) => s.(table := s.table + [NewRow(e, at)], hist := s.hist + [Hist(e.to, 0, 0, 0)])
    case Cancel(id) => s.(table := Cancelled(s.table, id))
    case Requeue(id, newTo, newToName, at) => s.(table := Requeued(s.table, id, newTo, newToName, at))
    case TickStart(now, ok) =>
      s.(worker := Claiming, now := now,
         table := if ok then StaleReleased(s.table, FmtTime(Cutoff(now))) else s.table)
    case Claim(ids, fate) => ClaimInRange(s.table, ids, Batch(c), FmtTime(s.now)); AfterClaim(s, ids, fate)
    case Go(j, a) => Gone(s, j, a)
    case Mark(j, ok, text) => Marked(s, j, ok, text)
    case TickEnd => s.(worker := Idle, jobs := [], sems := map[])
    case Crash => Crashed(s)
  }

  lemma ClaimInRange(t: Table, ids: seq<nat>, limit: nat, now: string)
    requires IsClaim(t, ids, limit, now)
    ensures forall k :: 0 <= k < |ids| ==> ids[k] < |t| && Due(t[ids[k]], now)
  {
    assert forall k :: 0 <= k < |ids| ==> ids[k] in ids;
  }

  // ---------------------------------------------------------------- runs

  ghost predicate Runs(c: Config, s: State, ls: seq<Label>)
    decreases |ls|
  {
    ls == [] || (Enabled(c, s, ls[0]) && Runs(c, Apply(c, s, ls[0]), ls[1..]))
  }

  ghost function Exec(c: Config, s: State, ls: seq<Label>): State
    requires Runs(c, s, ls)
    decreases |ls|
  {
    if ls == [] then s else Exec(c, Apply(c, s, ls[0]), ls[1..])
  }
}
