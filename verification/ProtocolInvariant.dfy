/** What every step of the delivery protocol keeps. */
module ProtocolInvariant {
  import opened Text
  import opened TimeText
  import opened Backoff
  import opened Emails
  import opened Protocol

  // ---------------------------------------------------------------- the invariant

  /** A claimed row belongs to its goroutine: until the goroutine writes its outcome, the row is
      exactly the row that was claimed, and no two goroutines of a tick have the same row. */
  ghost predicate FlightsOwnRows(s: State) {
    && |s.hist| == |s.table|
    && (s.worker != Delivering ==> s.jobs == [])
    && (s.worker != Idle ==> FourDigitYear(Seconds(s.now) + 86_400))
    && (forall j :: 0 <= j < |s.jobs| ==>
          && s.jobs[j].id < |s.table|
          && s.jobs[j].snap.status == Sending
          && s.jobs[j].snap.nextAttemptAt == FmtTime(s.now)
          && (Unmarked(s.jobs[j].phase) ==> s.table[s.jobs[j].id] == s.jobs[j].snap))
    && (forall i, j :: 0 <= i < j < |s.jobs| ==> s.jobs[i].id != s.jobs[j].id)
  }

  ghost predicate AttemptsBounded(s: State) {
    forall i :: 0 <= i < |s.table| ==>
      && s.table[i].attempts <= 8
      && (s.table[i].status == Queued || s.table[i].status == Sending ==> s.table[i].attempts <= 7)
  }

  /** `original_to` is empty while the address is the first one, and then stays the first one. */
  ghost predicate OriginalKept(s: State) {
    && |s.hist| == |s.table|
    && forall i :: 0 <= i < |s.table| && s.hist[i].firstTo != "" ==>
         (s.table[i].originalTo == "" && s.table[i].to == s.hist[i].firstTo)
         || s.table[i].originalTo == s.hist[i].firstTo
  }

  /** Every successful Send is either written as `sent`, still in flight, or lost. */
  ghost predicate SendsAccounted(s: State) {
    && |s.hist| == |s.table|
    && forall i :: 0 <= i < |s.table| ==>
         s.hist[i].accepted == s.hist[i].lost
           + if s.table[i].status == Sent || AcceptedInFlight(s.jobs, i) then 1 else 0
  }

  /** The channels count the goroutines that hold a token, never more than the limit. */
  ghost predicate TokensCounted(c: Config, s: State) {
    && (forall d :: Tokens(s.sems, d) == Holders(s.jobs, d))
    && (forall d :: d in s.sems ==> s.sems[d] <= Limit(c))
    && (forall j :: 0 <= j < |s.jobs| && !s.jobs[j].phase.Spawned? ==> DomainOf(s.jobs[j]) in s.sems)
  }

  /** A row that was retried `k` times waits at least the first `k` delays of the schedule. */
  ghost predicate BackoffKept(s: State) {
    && |s.hist| == |s.table|
    && forall i :: 0 <= i < |s.table| && (s.table[i].status == Queued || s.table[i].status == Sending)
         ==> WaitsOut(s.table[i], s.hist[i])
  }

  ghost predicate WaitsOut(e: Email, h: Hist) {
    1 <= e.attempts <= 7 ==>
      && FourDigitYear(h.start + Waited(e.attempts))
      && Leq(FmtSeconds(h.start + Waited(e.attempts)), e.nextAttemptAt)
  }

  ghost predicate Inv(c: Config, s: State) {
    && FlightsOwnRows(s)
    && AttemptsBounded(s)
    && OriginalKept(s)
    && SendsAccounted(s)
    && TokensCounted(c, s)
    && BackoffKept(s)
  }

  lemma InitialInv(c: Config)
    ensures Inv(c, INITIAL)
  {
  }

  // ---------------------------------------------------------------- one step

  lemma GoKeepsFlights(c: Config, s: State, j: nat, a: Action)
    requires FlightsOwnRows(s) && Enabled(c, s, Go(j, a))
    ensures FlightsOwnRows(Gone(s, j, a))
  {
    var s' := Gone(s, j, a);
    assert Unmarked(s'.jobs[j].phase) ==> Unmarked(s.jobs[j].phase);
  }

  lemma MarkKeepsFlights(s: State, j: nat, ok: bool, text: string)
    requires FlightsOwnRows(s) && JobAt(s, j) && s.jobs[j].phase.Recorded?
    ensures FlightsOwnRows(Marked(s, j, ok, text))
  {
  }

  lemma ClaimKeepsFlights(c: Config, s: State, ids: seq<nat>, fate: ClaimFate)
    requires FlightsOwnRows(s) && Enabled(c, s, Claim(ids, fate))
    ensures FlightsOwnRows(Apply(c, s, Claim(ids, fate)))
  {
    ClaimInRange(s.table, ids, Batch(c), FmtTime(s.now));
  }

  lemma StepFlights(c: Config, s: State, l: Label)
    requires FlightsOwnRows(s) && Enabled(c, s, l)
    ensures FlightsOwnRows(Apply(c, s, l))
  {
    hide FmtTime, Leq;
    match l
    case Go(j, a) => GoKeepsFlights(c, s, j, a);
    case Mark(j, ok, text) => MarkKeepsFlights(s, j, ok, text);
    case Claim(ids, fate) => ClaimKeepsFlights(c, s, ids, fate);
    case Enqueue(e, at) =>
    case Cancel(id) =>
    case Requeue(id, newTo, newToName, at) =>
    case TickStart(now, ok) =>
    case TickEnd =>
    case Crash =>
  }

  lemma MarkKeepsAttempts(s: State, j: nat, ok: bool, text: string)
    requires FlightsOwnRows(s) && AttemptsBounded(s) && JobAt(s, j) && s.jobs[j].phase.Recorded?
    ensures AttemptsBounded(Marked(s, j, ok, text))
  {
    hide FmtTime;
    assert s.table[s.jobs[j].id] == s.jobs[j].snap;
  }

  lemma StepAttempts(c: Config, s: State, l: Label)
    requires FlightsOwnRows(s) && AttemptsBounded(s) && Enabled(c, s, l)
    ensures AttemptsBounded(Apply(c, s, l))
  {
    hide FmtTime, Leq, AcceptedInFlight, NewRow, RequeuedRow;
    match l
    case Mark(j, ok, text) => MarkKeepsAttempts(s, j, ok, text);
    case Enqueue(e, at) => assert NewRow(e, at).attempts == 0 by { RowsStartOver(e, e, at); }
    case Requeue(id, newTo, newToName, at) =>
      if id < |s.table| {
        RowsStartOver(s.table[id], s.table[id], at, newTo, newToName);
      }
    case _ =>
  }

  lemma RowsStartOver(e: Email, row: Email, at: string, newTo: string := "", newToName: string := "")
    ensures NewRow(e, at).attempts == 0
    ensures RequeuedRow(row, newTo, newToName, at).attempts == 0
  {
  }

  /** A step that leaves every address alone keeps them. */
  lemma SameAddresses(s: State, s': State)
    requires OriginalKept(s) && |s'.table| == |s'.hist| == |s.table|
    requires forall i :: 0 <= i < |s.table| ==>
      s'.table[i].to == s.table[i].to && s'.table[i].originalTo == s.table[i].originalTo
      && s'.hist[i].firstTo == s.hist[i].firstTo
    ensures OriginalKept(s')
  {
  }

  lemma StepOriginal(c: Config, s: State, l: Label)
    requires |s.hist| == |s.table| && OriginalKept(s) && Enabled(c, s, l)
    ensures OriginalKept(Apply(c, s, l))
  {
    hide FmtTime, Leq, OriginalKept, AcceptedInFlight;
    match l
    case Enqueue(e, at) => EnvironmentKeepsOriginal(c, s, l);
    case Requeue(id, newTo, newToName, at) => EnvironmentKeepsOriginal(c, s, l);
    case Claim(ids, fate) => ClaimInRange(s.table, ids, Batch(c), FmtTime(s.now)); SameAddresses(s, Apply(c, s, l));
    case _ => SameAddresses(s, Apply(c, s, l));
  }

  lemma EnvironmentKeepsOriginal(c: Config, s: State, l: Label)
    requires OriginalKept(s) && Enabled(c, s, l) && (l.Enqueue? || l.Requeue?)
    ensures OriginalKept(Apply(c, s, l))
  {
  }

  /** Only the goroutine of an email says whether a success of it is still unwritten. */
  lemma InFlightAfter(jobs: seq<Job>, j: nat, p: Phase, id: nat)
    requires j < |jobs| && forall i, k :: 0 <= i < k < |jobs| ==> jobs[i].id != jobs[k].id
    ensures AcceptedInFlight(jobs[j := jobs[j].(phase := p)], id)
         == if id == jobs[j].id then AcceptedUnwritten(p) else AcceptedInFlight(jobs, id)
    ensures AcceptedInFlight(jobs, jobs[j].id) == AcceptedUnwritten(jobs[j].phase)
  {
    var after := jobs[j := jobs[j].(phase := p)];
    if id == jobs[j].id {
      assert after[j].id == id;
    } else if AcceptedInFlight(jobs, id) {
      var k :| 0 <= k < |jobs| && jobs[k].id == id && AcceptedUnwritten(jobs[k].phase);
      assert after[k] == jobs[k];
    }
  }

  lemma GoKeepsAccounts(c: Config, s: State, j: nat, a: Action)
    requires FlightsOwnRows(s) && SendsAccounted(s) && Enabled(c, s, Go(j, a))
    ensures SendsAccounted(Gone(s, j, a))
  {
    var s' := Gone(s, j, a);
    forall i | 0 <= i < |s.table|
      ensures s'.hist[i].accepted == s'.hist[i].lost
        + if s'.table[i].status == Sent || AcceptedInFlight(s'.jobs, i) then 1 else 0
    {
      InFlightAfter(s.jobs, j, NextPhase(s.jobs[j].phase, a), i);
    }
  }

  lemma MarkKeepsAccounts(s: State, j: nat, ok: bool, text: string)
    requires FlightsOwnRows(s) && SendsAccounted(s) && JobAt(s, j) && s.jobs[j].phase.Recorded?
    ensures SendsAccounted(Marked(s, j, ok, text))
  {
    var s' := Marked(s, j, ok, text);
    forall i | 0 <= i < |s.table|
      ensures s'.hist[i].accepted == s'.hist[i].lost
        + if s'.table[i].status == Sent || AcceptedInFlight(s'.jobs, i) then 1 else 0
    {
      InFlightAfter(s.jobs, j, s'.jobs[j].phase, i);
    }
  }

  lemma CrashKeepsAccounts(s: State)
    requires FlightsOwnRows(s) && SendsAccounted(s)
    ensures SendsAccounted(Crashed(s))
  {
    forall i | 0 <= i < |s.table|
      ensures s.table[i].status == Sent ==> !AcceptedInFlight(s.jobs, i)
    {
    }
  }

  lemma EnvironmentKeepsAccounts(c: Config, s: State, l: Label)
    requires FlightsOwnRows(s) && SendsAccounted(s) && Enabled(c, s, l)
    requires l.Enqueue? || l.Cancel? || l.Requeue? || l.TickStart?
    ensures SendsAccounted(Apply(c, s, l))
  {
    hide FmtTime, Leq;
  }

  lemma ClaimKeepsAccounts(c: Config, s: State, ids: seq<nat>, fate: ClaimFate)
    requires FlightsOwnRows(s) && SendsAccounted(s) && Enabled(c, s, Claim(ids, fate))
    ensures SendsAccounted(Apply(c, s, Claim(ids, fate)))
  {
    hide FmtTime, Leq;
    ClaimInRange(s.table, ids, Batch(c), FmtTime(s.now));
    var s' := Apply(c, s, Claim(ids, fate));
    forall i | 0 <= i < |s.table|
      ensures !AcceptedInFlight(s.jobs, i) && !AcceptedInFlight(s'.jobs, i)
      ensures s'.table[i].status == Sent <==> s.table[i].status == Sent
    {
    }
  }

  lemma StepAccounts(c: Config, s: State, l: Label)
    requires FlightsOwnRows(s) && SendsAccounted(s) && Enabled(c, s, l)
    ensures SendsAccounted(Apply(c, s, l))
  {
    match l
    case Go(j, a) => GoKeepsAccounts(c, s, j, a);
    case Mark(j, ok, text) => MarkKeepsAccounts(s, j, ok, text);
    case Claim(ids, fate) => ClaimKeepsAccounts(c, s, ids, fate);
    case TickEnd =>
    case Crash => CrashKeepsAccounts(s);
    case _ => EnvironmentKeepsAccounts(c, s, l);
  }

  // ---------------------------------------------------------------- tokens

  lemma {:induction false} HoldersAfter(jobs: seq<Job>, j: nat, p: Phase, d: string)
    requires j < |jobs|
    ensures Holders(jobs[j := jobs[j].(phase := p)], d)
          + (if HoldsToken(jobs[j].phase) && DomainOf(jobs[j]) == d then 1 else 0)
         == Holders(jobs, d) + (if HoldsToken(p) && DomainOf(jobs[j]) == d then 1 else 0)
  {
    var after := jobs[j := jobs[j].(phase := p)];
    var (rest, rest') := (jobs[..|jobs| - 1], after[..|jobs| - 1]);
    if j == |jobs| - 1 {
      assert rest == rest';
    } else {
      HoldersAfter(rest, j, p, d);
      assert rest' == rest[j := rest[j].(phase := p)];
    }
  }

  lemma {:induction false} NoHolders(jobs: seq<Job>, d: string)
    requires forall j :: 0 <= j < |jobs| ==> !HoldsToken(jobs[j].phase)
    ensures Holders(jobs, d) == 0
  {
    if jobs != [] {
      NoHolders(jobs[..|jobs| - 1], d);
    }
  }

  lemma TokensAfter(sems: map<string, nat>, domain: string, a: Action, d: string)
    requires a == Release ==> Tokens(sems, domain) > 0
    ensures Tokens(SemsAfter(sems, domain, a), d)
         == Tokens(sems, d) + if d != domain then 0 else if a == Acquire then 1 else if a == Release then -1 else 0
  {
  }

  lemma GoKeepsCount(c: Config, s: State, j: nat, a: Action, d: string)
    requires JobAt(s, j) && CanGo(c, s.sems, s.jobs[j], a) && Tokens(s.sems, d) == Holders(s.jobs, d)
    ensures Tokens(Gone(s, j, a).sems, d) == Holders(Gone(s, j, a).jobs, d)
  {
    hide RcptDomain, Tokens, Holders;
    var job := s.jobs[j];
    HoldersAfter(s.jobs, j, NextPhase(job.phase, a), d);
    TokensAfter(s.sems, DomainOf(job), a, d);
  }

  lemma GoKeepsTokens(c: Config, s: State, j: nat, a: Action)
    requires TokensCounted(c, s) && Enabled(c, s, Go(j, a))
    ensures TokensCounted(c, Gone(s, j, a))
  {
    hide RcptDomain, Tokens, Holders, SemsAfter;
    var s' := Gone(s, j, a);
    forall d ensures Tokens(s'.sems, d) == Holders(s'.jobs, d) {
      assert Tokens(s.sems, d) == Holders(s.jobs, d);
      GoKeepsCount(c, s, j, a, d);
    }
    LimitKept(c, s.sems, DomainOf(s.jobs[j]), a);
  }

  lemma LimitKept(c: Config, sems: map<string, nat>, domain: string, a: Action)
    requires forall d :: d in sems ==> sems[d] <= Limit(c)
    requires a == Acquire ==> Tokens(sems, domain) < Limit(c)
    ensures forall d :: d in SemsAfter(sems, domain, a) ==> SemsAfter(sems, domain, a)[d] <= Limit(c)
    ensures sems.Keys <= SemsAfter(sems, domain, a).Keys
    ensures a == GetSem ==> domain in SemsAfter(sems, domain, a)
  {
  }

  lemma MarkKeepsTokens(c: Config, s: State, j: nat, ok: bool, text: string)
    requires TokensCounted(c, s) && JobAt(s, j) && s.jobs[j].phase.Recorded?
    ensures TokensCounted(c, Marked(s, j, ok, text))
  {
    var s' := Marked(s, j, ok, text);
    forall d ensures Tokens(s'.sems, d) == Holders(s'.jobs, d) {
      HoldersAfter(s.jobs, j, s'.jobs[j].phase, d);
      assert Tokens(s.sems, d) == Holders(s.jobs, d);
    }
  }

  lemma StepTokens(c: Config, s: State, l: Label)
    requires TokensCounted(c, s) && FlightsOwnRows(s) && Enabled(c, s, l)
    ensures TokensCounted(c, Apply(c, s, l))
  {
    hide FmtTime, Leq;
    match l
    case Go(j, a) => GoKeepsTokens(c, s, j, a);
    case Mark(j, ok, text) => MarkKeepsTokens(c, s, j, ok, text);
    case Claim(ids, fate) =>
      ClaimInRange(s.table, ids, Batch(c), FmtTime(s.now));
      forall d ensures fate == Delivered ==> Holders(Apply(c, s, l).jobs, d) == 0 {
        if fate == Delivered {
          NoHolders(Apply(c, s, l).jobs, d);
        }
      }
    case Enqueue(e, at) =>
    case Cancel(id) =>
    case Requeue(id, newTo, newToName, at) =>
    case TickStart(now, ok) =>
    case TickEnd =>
    case Crash =>
  }

  // ---------------------------------------------------------------- backoff

  /** A row whose retry is due at `now`, retried once more. */
  lemma RetryWaits(e: Email, h: Hist, now: Instant, error: string)
    requires e.attempts <= 6 && WaitsOut(e, h) && e.nextAttemptAt == FmtTime(now)
    requires FourDigitYear(Seconds(now) + 86_400)
    ensures NextAttempt(e.attempts + 1, now).Some?
    ensures WaitsOut(RetryRow(e, FmtTime(NextAttempt(e.attempts + 1, now).value), error),
                     HistMarked(h, e, now, Temporary, true))
  {
    hide FmtSeconds, FourDigitYear, Leq;
    var k := e.attempts;
    RetrySecond(k + 1, now);
    var due := Seconds(now) + SCHEDULE[k];
    SecondsMonotone(due, Seconds(now) + 86_400);
    SecondsMonotone(Seconds(now), Seconds(now) + 86_400);
    var start := if k == 0 then Seconds(now) else h.start;
    if k > 0 {
      FmtOrder(start + Waited(k), Seconds(now));
    }
    assert Waited(k + 1) == Waited(k) + SCHEDULE[k];
    assert start + Waited(k + 1) <= due;
    SecondsMonotone(start + Waited(k + 1), due);
    FmtOrder(start + Waited(k + 1), due);
  }

  lemma MarkKeepsBackoff(s: State, j: nat, ok: bool, text: string)
    requires FlightsOwnRows(s) && BackoffKept(s) && AttemptsBounded(s)
    requires JobAt(s, j) && s.jobs[j].phase.Recorded?
    ensures BackoffKept(Marked(s, j, ok, text))
  {
    hide FmtSeconds, FourDigitYear, Leq;
    var job := s.jobs[j];
    assert s.table[job.id] == job.snap;
    assert WaitsOut(s.table[job.id], s.hist[job.id]);
    if ok && job.phase.outcome == Temporary && !GivesUp(job.snap, s.now, Temporary) {
      RetryWaits(job.snap, s.hist[job.id], s.now, text);
    }
  }

  lemma ClaimedWaits(e: Email, h: Hist, now: string)
    requires WaitsOut(e, h) && Due(e, now)
    ensures WaitsOut(ClaimedRow(e, now), h)
  {
    hide FmtSeconds, FourDigitYear, Leq;
    if 1 <= e.attempts <= 7 {
      LeqTransitive(FmtSeconds(h.start + Waited(e.attempts)), e.nextAttemptAt, now);
    }
  }

  lemma ClaimKeepsBackoff(c: Config, s: State, ids: seq<nat>, fate: ClaimFate)
    requires BackoffKept(s) && Enabled(c, s, Claim(ids, fate))
    ensures BackoffKept(Apply(c, s, Claim(ids, fate)))
  {
    hide FmtTime, WaitsOut, Leq;
    ClaimInRange(s.table, ids, Batch(c), FmtTime(s.now));
    var s' := Apply(c, s, Claim(ids, fate));
    forall i | 0 <= i < |s.table| && (s'.table[i].status == Queued || s'.table[i].status == Sending)
      ensures WaitsOut(s'.table[i], s'.hist[i])
    {
      if s'.table[i] != s.table[i] {
        assert i in DueIds(s.table, FmtTime(s.now));
        ClaimedWaits(s.table[i], s.hist[i], FmtTime(s.now));
      }
    }
  }

  lemma EnvironmentKeepsBackoff(c: Config, s: State, l: Label)
    requires BackoffKept(s) && Enabled(c, s, l) && (l.Enqueue? || l.Cancel? || l.Requeue?)
    ensures BackoffKept(Apply(c, s, l))
  {
    hide FmtTime, FmtSeconds, FourDigitYear, Leq;
  }

  lemma StepBackoff(c: Config, s: State, l: Label)
    requires FlightsOwnRows(s) && BackoffKept(s) && AttemptsBounded(s) && Enabled(c, s, l)
    ensures BackoffKept(Apply(c, s, l))
  {
    hide FmtTime, FmtSeconds, FourDigitYear, Leq, AcceptedInFlight;
    match l
    case Mark(j, ok, text) => MarkKeepsBackoff(s, j, ok, text);
    case Claim(ids, fate) => ClaimKeepsBackoff(c, s, ids, fate);
    case Enqueue(e, at) => EnvironmentKeepsBackoff(c, s, l);
    case Cancel(id) => EnvironmentKeepsBackoff(c, s, l);
    case Requeue(id, newTo, newToName, at) => EnvironmentKeepsBackoff(c, s, l);
    case _ =>
  }

  // ---------------------------------------------------------------- every run

  lemma IdleHasNoJobs(c: Config, s: State)
    requires Inv(c, s) && s.worker != Delivering
    ensures s.jobs == []
  {
  }

  lemma StepInv(c: Config, s: State, l: Label)
    requires Inv(c, s) && Enabled(c, s, l)
    ensures Inv(c, Apply(c, s, l))
  {
    StepFlights(c, s, l);
    StepAttempts(c, s, l);
    StepOriginal(c, s, l);
    StepAccounts(c, s, l);
    StepTokens(c, s, l);
    StepBackoff(c, s, l);
  }

  /** The invariant holds in every state of every run. */
  lemma {:induction false} RunInv(c: Config, s: State, ls: seq<Label>)
    requires Inv(c, s) && Runs(c, s, ls)
    ensures Inv(c, Exec(c, s, ls))
    decreases |ls|
  {
    if ls != [] {
      StepInv(c, s, ls[0]);
      RunInv(c, Apply(c, s, ls[0]), ls[1..]);
    }
  }
}
