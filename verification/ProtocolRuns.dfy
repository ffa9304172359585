/** What holds over whole runs of the delivery protocol. */
module ProtocolRuns {
  import opened Text
  import opened TimeText
  import opened Backoff
  import opened Emails
  import opened Protocol
  import opened ProtocolInvariant

  // ---------------------------------------------------------------- exclusive delivery

  /** In every reachable state an email is in flight at most once, and its row is `sending` and
      exactly as it was claimed, address and attempts included, until its own outcome write. */
  lemma NeverInFlightTwice(c: Config, ls: seq<Label>, i: nat, j: nat)
    requires Runs(c, INITIAL, ls)
    ensures var s := Exec(c, INITIAL, ls);
      && (i < j < |s.jobs| ==> s.jobs[i].id != s.jobs[j].id)
      && (j < |s.jobs| && Unmarked(s.jobs[j].phase) ==>
            && s.jobs[j].id < |s.table|
            && s.table[s.jobs[j].id] == s.jobs[j].snap
            && s.jobs[j].snap.status == Sending)
  {
    InitialInv(c);
    RunInv(c, INITIAL, ls);
  }

  /** The outcome writes carry no status guard, and need none: in a reachable state the write
      replaces the claimed row by a function of that row, and no other row changes. */
  lemma MarkWritesOwnClaim(c: Config, s: State, j: nat, text: string)
    requires Inv(c, s) && Enabled(c, s, Mark(j, true, text))
    ensures var (id, job) := (s.jobs[j].id, s.jobs[j]);
      && id < |s.table| && s.table[id].status == Sending
      && Apply(c, s, Mark(j, true, text)).table
         == s.table[id := OutcomeRow(job.snap, job.snap, s.now, job.phase.outcome, text)]
  {
  }

  // ---------------------------------------------------------------- settled rows

  predicate Settled(status: Status) {
    status == Sent || status == Failed || status == Canceled
  }

  lemma ClaimSparesSettled(c: Config, s: State, ids: seq<nat>, fate: ClaimFate, i: nat)
    requires FlightsOwnRows(s) && Enabled(c, s, Claim(ids, fate)) && i < |s.table|
    requires Settled(s.table[i].status)
    ensures i < |Apply(c, s, Claim(ids, fate)).table| && Apply(c, s, Claim(ids, fate)).table[i] == s.table[i]
  {
    hide FmtTime, Leq;
    ClaimInRange(s.table, ids, Batch(c), FmtTime(s.now));
    assert i !in ids;
  }

  /** No step but an admin requeue of this very email changes a settled row, and a sent row not
      even that; nor can a Send of it start. */
  lemma SettledStep(c: Config, s: State, l: Label, i: nat)
    requires FlightsOwnRows(s) && Enabled(c, s, l) && i < |s.table| && Settled(s.table[i].status)
    requires s.table[i].status == Sent || !Requeues(l, i)
    ensures i < |Apply(c, s, l).table| && Apply(c, s, l).table[i] == s.table[i]
    ensures !Happens(s, l, i, SendStarts)
  {
    hide FmtTime, Leq, AcceptedInFlight, NewRow, RequeuedRow, OutcomeRow, SemsAfter, HistAfter, NextPhase;
    match l
    case Claim(ids, fate) => ClaimSparesSettled(c, s, ids, fate, i);
    case _ =>
  }

  predicate Requeues(l: Label, i: nat) {
    l.Requeue? && l.id == i
  }

  /** `sent` is absorbing: over every continuation the row never changes again. */
  lemma {:induction false} SentIsAbsorbing(c: Config, s: State, ls: seq<Label>, i: nat)
    requires Inv(c, s) && Runs(c, s, ls) && i < |s.table| && s.table[i].status == Sent
    ensures i < |Exec(c, s, ls).table| && Exec(c, s, ls).table[i] == s.table[i]
    ensures Occurrences(c, s, ls, i, SendStarts) == 0
    decreases |ls|
  {
    if ls != [] {
      hide Inv, Enabled, Apply, Happens;
      SettledStep(c, s, ls[0], i);
      StepInv(c, s, ls[0]);
      SentIsAbsorbing(c, Apply(c, s, ls[0]), ls[1..], i);
    }
  }

  /** After a cancel took effect no Send of the email starts and its row stays as it is, until a
      requeue of it. The same holds for a failed email. */
  lemma {:induction false} SettledUntilRequeue(c: Config, s: State, ls: seq<Label>, i: nat)
    requires Inv(c, s) && Runs(c, s, ls) && i < |s.table| && Settled(s.table[i].status)
    requires forall k :: 0 <= k < |ls| ==> !Requeues(ls[k], i)
    ensures i < |Exec(c, s, ls).table| && Exec(c, s, ls).table[i] == s.table[i]
    ensures Occurrences(c, s, ls, i, SendStarts) == 0
    decreases |ls|
  {
    if ls != [] {
      hide Inv, Enabled, Apply, Happens;
      assert !Requeues(ls[0], i);
      SettledStep(c, s, ls[0], i);
      StepInv(c, s, ls[0]);
      SettledUntilRequeue(c, Apply(c, s, ls[0]), ls[1..], i);
    }
  }

  // ---------------------------------------------------------------- counting events of a run

  datatype Event = SendStarts | SendAccepted | OutcomeLost | OutcomeWritten | OutcomeTried

  ghost predicate Happens(s: State, l: Label, i: nat, ev: Event) {
    match ev
    case SendStarts => l.Go? && l.action == SendStart && l.j < |s.jobs| && s.jobs[l.j].id == i
    case SendAccepted => l.Go? && l.action == SendEnd(Accepted) && l.j < |s.jobs| && s.jobs[l.j].id == i
    case OutcomeLost =>
      || (l.Crash? && AcceptedInFlight(s.jobs, i))
      || (l.Mark? && !l.ok && l.j < |s.jobs| && s.jobs[l.j].id == i && AcceptedUnwritten(s.jobs[l.j].phase))
    case OutcomeWritten => l.Mark? && l.ok && l.j < |s.jobs| && s.jobs[l.j].id == i
    case OutcomeTried => l.Mark? && l.j < |s.jobs| && s.jobs[l.j].id == i
  }

  ghost function Occurrences(c: Config, s: State, ls: seq<Label>, i: nat, ev: Event): nat
    requires Runs(c, s, ls)
    decreases |ls|
  {
    if ls == [] then 0
    else (if Happens(s, ls[0], i, ev) then 1 else 0) + Occurrences(c, Apply(c, s, ls[0]), ls[1..], i, ev)
  }

  function HistOf(s: State, i: nat): Hist {
    if i < |s.hist| then s.hist[i] else Hist("", 0, 0, 0)
  }

  lemma HistStep(c: Config, s: State, l: Label, i: nat)
    requires FlightsOwnRows(s) && Enabled(c, s, l)
    ensures HistOf(Apply(c, s, l), i).accepted == HistOf(s, i).accepted + if Happens(s, l, i, SendAccepted) then 1 else 0
    ensures HistOf(Apply(c, s, l), i).lost == HistOf(s, i).lost + if Happens(s, l, i, OutcomeLost) then 1 else 0
  {
    hide FmtTime, Leq, NewRow, RequeuedRow, OutcomeRow;
  }

  /** The history counts what happened in the run. */
  lemma {:induction false} HistCounts(c: Config, s: State, ls: seq<Label>, i: nat)
    requires Inv(c, s) && Runs(c, s, ls)
    ensures HistOf(Exec(c, s, ls), i).accepted == HistOf(s, i).accepted + Occurrences(c, s, ls, i, SendAccepted)
    ensures HistOf(Exec(c, s, ls), i).lost == HistOf(s, i).lost + Occurrences(c, s, ls, i, OutcomeLost)
    decreases |ls|
  {
    if ls != [] {
      hide Enabled, Apply, Happens, HistOf;
      HistStep(c, s, ls[0], i);
      StepInv(c, s, ls[0]);
      HistCounts(c, Apply(c, s, ls[0]), ls[1..], i);
    }
  }

  /** Over every run an email has at most one successful Send, plus one for each crash or failed
      outcome write that hit it between the success and its recording; and it has exactly that many
      if it ended as `sent`. */
  lemma AtMostOneSuccessfulSend(c: Config, ls: seq<Label>, i: nat)
    requires Runs(c, INITIAL, ls)
    ensures var (accepted, lost) :=
        (Occurrences(c, INITIAL, ls, i, SendAccepted), Occurrences(c, INITIAL, ls, i, OutcomeLost));
      && accepted <= 1 + lost
      && (i < |Exec(c, INITIAL, ls).table| && Exec(c, INITIAL, ls).table[i].status == Sent ==> accepted == 1 + lost)
  {
    InitialInv(c);
    RunInv(c, INITIAL, ls);
    HistCounts(c, INITIAL, ls, i);
  }

  predicate Lossless(l: Label) {
    !l.Crash? && !(l.Mark? && !l.ok)
  }

  lemma {:induction false} NothingLost(c: Config, s: State, ls: seq<Label>, i: nat)
    requires Runs(c, s, ls) && forall k :: 0 <= k < |ls| ==> Lossless(ls[k])
    ensures Occurrences(c, s, ls, i, OutcomeLost) == 0
    decreases |ls|
  {
    if ls != [] {
      assert Lossless(ls[0]);
      NothingLost(c, Apply(c, s, ls[0]), ls[1..], i);
    }
  }

  /** Without crashes and failed outcome writes no email is successfully sent twice. */
  lemma SentOnce(c: Config, ls: seq<Label>, i: nat)
    requires Runs(c, INITIAL, ls) && forall k :: 0 <= k < |ls| ==> Lossless(ls[k])
    ensures Occurrences(c, INITIAL, ls, i, SendAccepted) <= 1
  {
    NothingLost(c, INITIAL, ls, i);
    AtMostOneSuccessfulSend(c, ls, i);
  }

  // ---------------------------------------------------------------- retries

  lemma ClaimKeepsAttempts(c: Config, s: State, ids: seq<nat>, fate: ClaimFate, i: nat)
    requires Enabled(c, s, Claim(ids, fate)) && i < |s.table|
    ensures i < |Apply(c, s, Claim(ids, fate)).table|
    ensures Apply(c, s, Claim(ids, fate)).table[i].attempts == s.table[i].attempts
  {
    hide FmtTime, Leq;
    ClaimInRange(s.table, ids, Batch(c), FmtTime(s.now));
  }

  lemma AttemptsStep(c: Config, s: State, l: Label, i: nat)
    requires FlightsOwnRows(s) && Enabled(c, s, l) && i < |s.table| && !Requeues(l, i)
    ensures i < |Apply(c, s, l).table|
    ensures Apply(c, s, l).table[i].attempts
         == s.table[i].attempts + if Happens(s, l, i, OutcomeWritten) then 1 else 0
  {
    hide FmtTime, Leq, NewRow, RequeuedRow, AcceptedInFlight, SemsAfter, HistAfter, NextPhase;
    match l
    case Claim(ids, fate) => ClaimKeepsAttempts(c, s, ids, fate, i);
    case _ =>
  }

  /** Between two admin requeues every outcome write uses up one of the eight attempts, so
      `8 - attempts` bounds the writes still to come. */
  lemma {:induction false} WritesAreBounded(c: Config, s: State, ls: seq<Label>, i: nat)
    requires Inv(c, s) && Runs(c, s, ls) && i < |s.table|
    requires forall k :: 0 <= k < |ls| ==> !Requeues(ls[k], i)
    ensures i < |Exec(c, s, ls).table|
    ensures Exec(c, s, ls).table[i].attempts == s.table[i].attempts + Occurrences(c, s, ls, i, OutcomeWritten)
    ensures Occurrences(c, s, ls, i, OutcomeWritten) <= 8 - s.table[i].attempts
    decreases |ls|
  {
    if ls != [] {
      assert !Requeues(ls[0], i);
      AttemptsStep(c, s, ls[0], i);
      StepInv(c, s, ls[0]);
      hide Enabled, Apply, Happens;
      WritesAreBounded(c, Apply(c, s, ls[0]), ls[1..], i);
    }
  }

  /** Giving up on temporary errors happens at the eighth attempt and only there. */
  lemma ExhaustedAtEight(c: Config, s: State, j: nat, text: string)
    requires Inv(c, s) && Enabled(c, s, Mark(j, true, text)) && s.jobs[j].phase.outcome == Temporary
    ensures var row := Apply(c, s, Mark(j, true, text)).table[s.jobs[j].id];
      && (row.status == Failed <==> row.attempts == 8)
      && (row.status == Queued <==> row.attempts <= 7)
      && (row.status == Failed || row.status == Queued)
  {
    hide FmtTime;
  }

  /** The attempt after `k` retries runs in a tick at least the first `k` delays after the tick of
      the first attempt, in whole seconds: 148860 of them before the eighth. */
  lemma AttemptNotBefore(c: Config, s: State, j: nat)
    requires Inv(c, s) && j < |s.jobs| && Unmarked(s.jobs[j].phase) && s.jobs[j].snap.attempts >= 1
    ensures s.jobs[j].snap.attempts <= 7
    ensures Seconds(s.now) >= s.hist[s.jobs[j].id].start + Waited(s.jobs[j].snap.attempts)
    ensures s.jobs[j].snap.attempts == 7 ==> Seconds(s.now) >= s.hist[s.jobs[j].id].start + 148_860
  {
    hide FmtSeconds, FourDigitYear, Leq;
    var job := s.jobs[j];
    assert s.table[job.id] == job.snap && WaitsOut(job.snap, s.hist[job.id]);
    SecondsMonotone(Seconds(s.now), Seconds(s.now) + 86_400);
    FmtOrder(s.hist[job.id].start + Waited(job.snap.attempts), Seconds(s.now));
    WaitedInFull();
  }

  /** Once an email has an attempt behind it, only a requeue of it can restart its clock. */
  lemma StartStep(c: Config, s: State, l: Label, i: nat)
    requires FlightsOwnRows(s) && Enabled(c, s, l) && i < |s.table| && !Requeues(l, i) && s.table[i].attempts >= 1
    ensures i < |Apply(c, s, l).hist| && Apply(c, s, l).hist[i].start == s.hist[i].start
  {
    hide FmtTime, Leq, NewRow, RequeuedRow, AcceptedInFlight, SemsAfter, NextPhase, OutcomeRow, IsClaim;
  }

  lemma {:induction false} StartStays(c: Config, s: State, ls: seq<Label>, i: nat)
    requires Inv(c, s) && Runs(c, s, ls) && i < |s.table| && s.table[i].attempts >= 1
    requires forall k :: 0 <= k < |ls| ==> !Requeues(ls[k], i)
    ensures i < |Exec(c, s, ls).hist| && Exec(c, s, ls).hist[i].start == s.hist[i].start
    decreases |ls|
  {
    if ls != [] {
      assert !Requeues(ls[0], i);
      StartStep(c, s, ls[0], i);
      AttemptsStep(c, s, ls[0], i);
      StepInv(c, s, ls[0]);
      hide Enabled, Apply, Inv;
      StartStays(c, Apply(c, s, ls[0]), ls[1..], i);
    }
  }

  lemma FirstWrite(c: Config, s: State, j: nat, text: string)
    requires Inv(c, s) && Enabled(c, s, Mark(j, true, text)) && s.jobs[j].snap.attempts == 0
    ensures var (i, s') := (s.jobs[j].id, Apply(c, s, Mark(j, true, text)));
      i < |s'.table| == |s'.hist| && s'.table[i].attempts == 1 && s'.hist[i].start == Seconds(s.now)
  {
    hide FmtTime;
  }

  lemma WritesOwnRow(c: Config, s: State, j: nat, ok: bool, text: string)
    requires Inv(c, s) && Enabled(c, s, Mark(j, ok, text))
    ensures Unmarked(s.jobs[j].phase) && s.jobs[j].id < |s.table| && s.table[s.jobs[j].id] == s.jobs[j].snap
  {
  }

  lemma LaterAttempt(c: Config, s: State, ls: seq<Label>, i: nat, j: nat, ok: bool, text: string)
    requires Inv(c, s) && i < |s.table| == |s.hist| && s.table[i].attempts == 1 && Runs(c, s, ls)
    requires forall k :: 0 <= k < |ls| ==> !Requeues(ls[k], i)
    requires Enabled(c, Exec(c, s, ls), Mark(j, ok, text)) && Exec(c, s, ls).jobs[j].id == i
    ensures var (s', k) := (Exec(c, s, ls), 1 + Occurrences(c, s, ls, i, OutcomeWritten));
      && k == s'.jobs[j].snap.attempts <= 7
      && Seconds(s'.now) >= s.hist[i].start + Waited(k)
      && (k == 7 ==> Seconds(s'.now) >= s.hist[i].start + 148_860)
  {
    var s' := Exec(c, s, ls);
    assert j < |s'.jobs|;
    hide Inv, Enabled, Apply, Runs, Exec, Waited, Occurrences;
    RunInv(c, s, ls);
    StartStays(c, s, ls, i);
    WritesAreBounded(c, s, ls, i);
    WritesOwnRow(c, s', j, ok, text);
    AttemptNotBefore(c, s', j);
  }

  /** Over every run: from the outcome write of an email's first attempt to the one of a later
      attempt with no requeue of the email in between, the ticks are at least the first `k` delays
      of the schedule apart, `k` being the number of outcomes written before the later one. */
  lemma AttemptsApart(c: Config, before: seq<Label>, j: nat, text: string, between: seq<Label>, j': nat, ok: bool, text': string)
    requires Runs(c, INITIAL, before)
    requires var s := Exec(c, INITIAL, before);
      && Enabled(c, s, Mark(j, true, text)) && s.jobs[j].snap.attempts == 0
      && var s1 := Apply(c, s, Mark(j, true, text));
      && Runs(c, s1, between) && (forall k :: 0 <= k < |between| ==> !Requeues(between[k], s.jobs[j].id))
      && var s2 := Exec(c, s1, between);
      && Enabled(c, s2, Mark(j', ok, text')) && s2.jobs[j'].id == s.jobs[j].id
    ensures var s := Exec(c, INITIAL, before);
      var s1 := Apply(c, s, Mark(j, true, text));
      var s2 := Exec(c, s1, between);
      var k := 1 + Occurrences(c, s1, between, s.jobs[j].id, OutcomeWritten);
      && k == s2.jobs[j'].snap.attempts <= 7
      && Seconds(s2.now) >= Seconds(s.now) + Waited(k)
      && (k == 7 ==> Seconds(s2.now) >= Seconds(s.now) + 148_860)
  {
    var s := Exec(c, INITIAL, before);
    hide Inv, Enabled, Apply, Runs, Exec, Waited, Occurrences;
    InitialInv(c);
    RunInv(c, INITIAL, before);
    StepInv(c, s, Mark(j, true, text));
    FirstWrite(c, s, j, text);
    LaterAttempt(c, Apply(c, s, Mark(j, true, text)), between, s.jobs[j].id, j', ok, text');
  }

  // ---------------------------------------------------------------- concurrency cap and progress

  /** The Sends of a domain that run at this moment. */
  function Sends(jobs: seq<Job>, domain: string): nat {
    if jobs == [] then 0
    else Sends(jobs[..|jobs| - 1], domain)
         + if jobs[|jobs| - 1].phase == InSend && DomainOf(jobs[|jobs| - 1]) == domain then 1 else 0
  }

  lemma {:induction false} SendsHoldTokens(jobs: seq<Job>, domain: string)
    ensures Sends(jobs, domain) <= Holders(jobs, domain)
  {
    if jobs != [] {
      SendsHoldTokens(jobs[..|jobs| - 1], domain);
    }
  }

  /** The channel of a domain caps its Sends. */
  lemma ChannelCap(c: Config, ls: seq<Label>, domain: string)
    requires Runs(c, INITIAL, ls)
    ensures Sends(Exec(c, INITIAL, ls).jobs, domain) <= Limit(c)
  {
    InitialInv(c);
    RunInv(c, INITIAL, ls);
    var s := Exec(c, INITIAL, ls);
    SendsHoldTokens(s.jobs, domain);
    assert Tokens(s.sems, domain) == Holders(s.jobs, domain);
  }

  /** The same character up to the case of ASCII letters. */
  predicate SameLetter(a: char, b: char) {
    || a == b
    || ('a' <= a <= 'z' && b as int == a as int - 32)
    || ('a' <= b <= 'z' && a as int == b as int - 32)
  }

  predicate SameLetters(a: string, b: string) {
    |a| == |b| && forall i :: 0 <= i < |a| ==> SameLetter(a[i], b[i])
  }

  /** The address ends in the domain: what follows its last '@', or all of it, up to letter case. */
  predicate GoesTo(to: string, domain: string) {
    && '@' !in domain && |domain| <= |to|
    && SameLetters(to[|to| - |domain|..], domain)
    && (|domain| < |to| ==> to[|to| - |domain| - 1] == '@')
  }

  function SendsTo(jobs: seq<Job>, domain: string): set<nat> {
    set j: nat | j < |jobs| && jobs[j].phase == InSend && GoesTo(jobs[j].snap.to, domain)
  }

  lemma {:induction false} AfterLastAt(to: string, n: nat)
    requires n <= |to| && '@' !in to[|to| - n..] && (n < |to| ==> to[|to| - n - 1] == '@')
    ensures AfterAt(to) == to[|to| - n..]
  {
    if n == |to| {
      assert to[0..] == to;
    } else if n == 0 {
      assert to[|to| - 1] in to;
    } else {
      var rest := to[..|to| - 1];
      assert to[|to| - n - 1] in to && to[|to| - n..][n - 1] == to[|to| - 1];
      assert rest[|rest| - (n - 1)..] == to[|to| - n..][..n - 1];
      AfterLastAt(rest, n - 1);
      assert to[|to| - n..] == rest[|rest| - (n - 1)..] + [to[|to| - 1]];
    }
  }

  lemma OneDomain(to: string, domain: string)
    requires GoesTo(to, domain)
    ensures RcptDomain(to) == Lower(domain)
  {
    var end := to[|to| - |domain|..];
    forall i | 0 <= i < |end| ensures end[i] != '@' && LowerChar(end[i]) == LowerChar(domain[i]) {
      assert SameLetter(end[i], domain[i]) && domain[i] in domain;
    }
    AfterLastAt(to, |domain|);
    assert Lower(end) == Lower(domain);
  }

  lemma LastSend(jobs: seq<Job>, domain: string)
    requires jobs != []
    ensures var (n, rest) := (|jobs| - 1, jobs[..|jobs| - 1]);
      |SendsTo(jobs, domain)| == |SendsTo(rest, domain)|
        + if jobs[n].phase == InSend && GoesTo(jobs[n].snap.to, domain) then 1 else 0
  {
    hide GoesTo;
    var (n, rest) := (|jobs| - 1, jobs[..|jobs| - 1]);
    if jobs[n].phase == InSend && GoesTo(jobs[n].snap.to, domain) {
      assert SendsTo(jobs, domain) == SendsTo(rest, domain) + {n};
    } else {
      assert SendsTo(jobs, domain) == SendsTo(rest, domain);
    }
  }

  lemma {:induction false} SendsCounted(jobs: seq<Job>, domain: string)
    ensures |SendsTo(jobs, domain)| <= Sends(jobs, Lower(domain))
  {
    hide GoesTo, RcptDomain, Lower;
    if jobs != [] {
      var (n, rest) := (|jobs| - 1, jobs[..|jobs| - 1]);
      SendsCounted(rest, domain);
      LastSend(jobs, domain);
      hide SendsTo;
      if jobs[n].phase == InSend && GoesTo(jobs[n].snap.to, domain) {
        OneDomain(jobs[n].snap.to, domain);
      }
    }
  }

  /** Under every schedule, within a tick and across ticks, at most the configured number of Sends, two
      if none is configured, run at once to addresses whose domains are equal up to letter case. */
  lemma DomainCap(c: Config, ls: seq<Label>, domain: string)
    requires Runs(c, INITIAL, ls)
    ensures |SendsTo(Exec(c, INITIAL, ls).jobs, domain)| <= if c.perDomainLimit == 0 then 2 else c.perDomainLimit
  {
    ChannelCap(c, ls, Lower(domain));
    SendsCounted(Exec(c, INITIAL, ls).jobs, domain);
  }

  function Rank(p: Phase): nat {
    match p
    case Spawned => 8
    case Waiting => 7
    case Holding => 6
    case InSend => 5
    case Returned(_) => 4
    case Recorded(_) => 3
    case Notifying => 2
    case Releasing => 1
    case Finished => 0
  }

  /** Steps the goroutines of the tick can still take. */
  function Work(jobs: seq<Job>): nat {
    if jobs == [] then 0 else Work(jobs[..|jobs| - 1]) + Rank(jobs[|jobs| - 1].phase)
  }

  predicate WorkerStep(l: Label) {
    l.Go? || l.Mark?
  }

  lemma {:induction false} WorkAfter(jobs: seq<Job>, j: nat, p: Phase)
    requires j < |jobs|
    ensures Work(jobs[j := jobs[j].(phase := p)]) + Rank(jobs[j].phase) == Work(jobs) + Rank(p)
  {
    var after := jobs[j := jobs[j].(phase := p)];
    var (rest, rest') := (jobs[..|jobs| - 1], after[..|jobs| - 1]);
    if j == |jobs| - 1 {
      assert rest == rest';
    } else {
      WorkAfter(rest, j, p);
      assert rest' == rest[j := rest[j].(phase := p)];
    }
  }

  lemma GoWorks(c: Config, s: State, j: nat, a: Action)
    requires Enabled(c, s, Go(j, a))
    ensures Work(Gone(s, j, a).jobs) < Work(s.jobs)
  {
    hide RcptDomain, SemsAfter, HistAfter;
    WorkAfter(s.jobs, j, NextPhase(s.jobs[j].phase, a));
  }

  lemma MarkWorks(c: Config, s: State, j: nat, ok: bool, text: string)
    requires Enabled(c, s, Mark(j, ok, text))
    ensures Work(Marked(s, j, ok, text).jobs) < Work(s.jobs)
  {
    hide OutcomeRow, HistMarked, GivesUp;
    var done := GivesUp(s.jobs[j].snap, s.now, s.jobs[j].phase.outcome);
    WorkAfter(s.jobs, j, if done then Notifying else Releasing);
  }

  /** Every goroutine step brings the tick closer to its end, and nobody else undoes that. */
  lemma WorkStep(c: Config, s: State, l: Label)
    requires Enabled(c, s, l) && !l.Claim?
    ensures Work(Apply(c, s, l).jobs) <= Work(s.jobs)
    ensures WorkerStep(l) ==> Work(Apply(c, s, l).jobs) < Work(s.jobs)
  {
    hide Gone, Marked, FmtTime, Leq, NewRow, RequeuedRow, AcceptedInFlight;
    match l
    case Go(j, a) => GoWorks(c, s, j, a);
    case Mark(j, ok, text) => MarkWorks(c, s, j, ok, text);
    case _ =>
  }

  predicate WithinTick(l: Label) {
    !l.Claim? && !l.TickEnd? && !l.Crash?
  }

  lemma OutcomeStep(c: Config, s: State, l: Label, j: nat)
    requires FlightsOwnRows(s) && Enabled(c, s, l) && WithinTick(l) && j < |s.jobs|
    ensures var s' := Apply(c, s, l);
      && |s'.jobs| == |s.jobs| && s'.jobs[j].id == s.jobs[j].id
      && (Unmarked(s'.jobs[j].phase) ==> Unmarked(s.jobs[j].phase))
      && (Happens(s, l, s.jobs[j].id, OutcomeTried) <==> Unmarked(s.jobs[j].phase) && !Unmarked(s'.jobs[j].phase))
  {
    hide FmtTime, Leq, NewRow, RequeuedRow, OutcomeRow, SemsAfter, HistAfter, HistMarked, FourDigitYear;
  }

  /** Within a tick, under every schedule, each claimed email gets exactly one outcome write by the
      time its goroutine is past it, and none before. */
  lemma {:induction false} OneOutcomePerTick(c: Config, s: State, ls: seq<Label>, j: nat)
    requires Inv(c, s) && Runs(c, s, ls) && forall k :: 0 <= k < |ls| ==> WithinTick(ls[k])
    requires j < |s.jobs| && Unmarked(s.jobs[j].phase)
    ensures var s' := Exec(c, s, ls);
      && |s'.jobs| == |s.jobs| && s'.jobs[j].id == s.jobs[j].id
      && Occurrences(c, s, ls, s.jobs[j].id, OutcomeTried) == if Unmarked(s'.jobs[j].phase) then 0 else 1
    decreases |ls|
  {
    OutcomeCount(c, s, ls, j);
  }

  lemma {:induction false} OutcomeCount(c: Config, s: State, ls: seq<Label>, j: nat)
    requires Inv(c, s) && Runs(c, s, ls) && forall k :: 0 <= k < |ls| ==> WithinTick(ls[k])
    requires j < |s.jobs|
    ensures var s' := Exec(c, s, ls);
      && |s'.jobs| == |s.jobs| && s'.jobs[j].id == s.jobs[j].id
      && (Unmarked(s'.jobs[j].phase) ==> Unmarked(s.jobs[j].phase))
      && Occurrences(c, s, ls, s.jobs[j].id, OutcomeTried)
         == if Unmarked(s.jobs[j].phase) && !Unmarked(s'.jobs[j].phase) then 1 else 0
    decreases |ls|
  {
    if ls != [] {
      assert WithinTick(ls[0]);
      OutcomeStep(c, s, ls[0], j);
      StepInv(c, s, ls[0]);
      hide Inv, Enabled, Apply, Happens, Unmarked;
      OutcomeCount(c, Apply(c, s, ls[0]), ls[1..], j);
    }
  }

  ghost function WorkerSteps(ls: seq<Label>): nat {
    if ls == [] then 0 else (if WorkerStep(ls[0]) then 1 else 0) + WorkerSteps(ls[1..])
  }

  /** A tick that claimed `n` emails takes at most `8 n` goroutine steps, however the scheduler,
      the API and the admin interleave with it. */
  lemma {:induction false} TickIsBounded(c: Config, s: State, ls: seq<Label>)
    requires Runs(c, s, ls) && forall k :: 0 <= k < |ls| ==> !ls[k].Claim?
    ensures WorkerSteps(ls) + Work(Exec(c, s, ls).jobs) <= Work(s.jobs)
    decreases |ls|
  {
    if ls != [] {
      hide Enabled, Apply;
      assert !ls[0].Claim?;
      WorkStep(c, s, ls[0]);
      TickIsBounded(c, Apply(c, s, ls[0]), ls[1..]);
    }
  }

  /** The goroutine step that comes next in a phase. */
  function NextAction(p: Phase): Action
    requires !p.Recorded? && p != Finished
  {
    match p
    case Spawned => GetSem
    case Waiting => Acquire
    case Holding => SendStart
    case InSend => SendEnd(Temporary)
    case Returned(_) => Record
    case Notifying => Notify(true)
    case Releasing => Release
  }

  /** No deadlock: as long as a goroutine is not finished, some goroutine can take a step. */
  lemma NoDeadlock(c: Config, s: State, j: nat) returns (l: Label)
    requires FlightsOwnRows(s) && TokensCounted(c, s)
    requires s.worker == Delivering && j < |s.jobs| && s.jobs[j].phase != Finished
    ensures WorkerStep(l) && Enabled(c, s, l)
  {
    hide FmtTime, RcptDomain, FourDigitYear, Holders;
    if k :| 0 <= k < |s.jobs| && HoldsToken(s.jobs[k].phase) {
      l := if s.jobs[k].phase.Recorded? then Mark(k, true, "") else Go(k, NextAction(s.jobs[k].phase));
      HolderCounts(s.jobs, k);
      assert Tokens(s.sems, DomainOf(s.jobs[k])) == Holders(s.jobs, DomainOf(s.jobs[k]));
    } else {
      l := Go(j, NextAction(s.jobs[j].phase));
      NoHolders(s.jobs, DomainOf(s.jobs[j]));
      assert Tokens(s.sems, DomainOf(s.jobs[j])) == Holders(s.jobs, DomainOf(s.jobs[j]));
    }
  }

  lemma {:induction false} HolderCounts(jobs: seq<Job>, k: nat)
    requires k < |jobs| && HoldsToken(jobs[k].phase)
    ensures Holders(jobs, DomainOf(jobs[k])) > 0
  {
    if k < |jobs| - 1 {
      HolderCounts(jobs[..|jobs| - 1], k);
    }
  }

  // ---------------------------------------------------------------- pending failures

  /** Only failures of user emails are reported to the notifier. */
  ghost predicate UserPending(s: State) {
    forall id :: id in s.pending ==> id < |s.table| && !s.table[id].isSystem
  }

  lemma UserPendingStep(c: Config, s: State, l: Label)
    requires |s.table| == |s.hist| && UserPending(s) && Enabled(c, s, l)
    ensures UserPending(Apply(c, s, l))
  {
    hide FmtTime, Leq, AcceptedInFlight, SemsAfter, HistAfter, NextPhase, RcptDomain;
    match l
    case Claim(ids, fate) => ClaimInRange(s.table, ids, Batch(c), FmtTime(s.now));
    case _ =>
  }

  lemma {:induction false} UserPendingRun(c: Config, s: State, ls: seq<Label>)
    requires Inv(c, s) && UserPending(s) && Runs(c, s, ls)
    ensures UserPending(Exec(c, s, ls))
    decreases |ls|
  {
    if ls != [] {
      StepInv(c, s, ls[0]);
      UserPendingStep(c, s, ls[0]);
      hide Inv, Enabled, Apply, UserPending;
      UserPendingRun(c, Apply(c, s, ls[0]), ls[1..]);
    }
  }

  /** No system email is ever pending, so a digest is never about an undelivered digest. */
  lemma NoSystemEmailPending(c: Config, ls: seq<Label>, id: nat)
    requires Runs(c, INITIAL, ls) && id in Exec(c, INITIAL, ls).pending
    ensures id < |Exec(c, INITIAL, ls).table| && !Exec(c, INITIAL, ls).table[id].isSystem
  {
    InitialInv(c);
    UserPendingRun(c, INITIAL, ls);
  }

  // ---------------------------------------------------------------- addresses

  /** Over every run, whatever the admin requeues: while `original_to` is empty the email still goes
      to its first address, and otherwise `original_to` is that first address. */
  lemma FirstAddressKept(c: Config, ls: seq<Label>, i: nat)
    requires Runs(c, INITIAL, ls) && i < |Exec(c, INITIAL, ls).table|
    ensures var s := Exec(c, INITIAL, ls);
      && i < |s.hist|
      && (s.hist[i].firstTo != "" ==> AddressKept(s.hist[i].firstTo, s.table[i]))
  {
    InitialInv(c);
    RunInv(c, INITIAL, ls);
  }

  predicate AddressKept(first: string, e: Email) {
    (e.originalTo == "" && e.to == first) || e.originalTo == first
  }

  /** A series of admin retries with these recipients. */
  function Readdressed(e: Email, tos: seq<string>): Email {
    if tos == [] then e else RequeuedRow(Readdressed(e, tos[..|tos| - 1]), tos[|tos| - 1], "", "")
  }

  lemma {:induction false} ReaddressingKeeps(e: Email, tos: seq<string>)
    requires e.originalTo == "" && e.to != ""
    ensures AddressKept(e.to, Readdressed(e, tos))
  {
    if tos != [] {
      ReaddressingKeeps(e, tos[..|tos| - 1]);
    }
  }

  /** The empty text doubles as "never changed": the first address survives every series of retries
      exactly if it is not empty. */
  lemma AddressKeptExactly(e: Email)
    requires e.originalTo == ""
    ensures (forall tos :: AddressKept(e.to, Readdressed(e, tos))) <==> e.to != ""
  {
    if e.to != "" {
      forall tos ensures AddressKept(e.to, Readdressed(e, tos)) {
        ReaddressingKeeps(e, tos);
      }
    } else {
      var tos := ["a", "b"];
      assert tos[..1] == ["a"] && tos[..1][..0] == [];
      assert Readdressed(e, []) == e && Readdressed(e, tos[..1]).to == "a";
      assert Readdressed(e, tos).originalTo == "a";
      assert !AddressKept(e.to, Readdressed(e, tos));
    }
  }
}
