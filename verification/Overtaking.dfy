/** Fairness of the queue: how long other emails can go ahead of one that is due. */
module Overtaking {
  import opened Text
  import opened TimeText
  import opened Backoff
  import opened Emails
  import opened Protocol
  import opened ProtocolInvariant

  /** The queued emails the claim order may prefer to email `i`. */
  function Ahead(t: Table, i: nat): set<nat>
    requires i < |t|
  {
    set j: nat | j < |t| && j != i && t[j].status == Queued && Leq(t[j].nextAttemptAt, t[i].nextAttemptAt)
  }

  /** Without lost outcomes a `sending` row always has a goroutine that will write its outcome. */
  ghost predicate NoStrandedRows(s: State) {
    forall i :: 0 <= i < |s.table| && s.table[i].status == Sending
      ==> exists j :: 0 <= j < |s.jobs| && s.jobs[j].id == i && Unmarked(s.jobs[j].phase)
  }

  /** Nothing goes wrong in this step: no crash, no failed outcome write, no claim whose rows are
      lost. */
  predicate Clean(l: Label) {
    !l.Crash? && !(l.Mark? && !l.ok) && !(l.Claim? && l.fate == RowsLost)
  }

  /** Every time this step writes or compares with lies in a later second than `due`. */
  predicate Later(l: Label, due: string) {
    match l
    case Enqueue(e, at) => Less(due, NewRow(e, at).nextAttemptAt)
    case Requeue(id, newTo, newToName, at) => Less(due, at)
    case TickStart(now, ok) => Less(due, FmtTime(now))
    case _ => true
  }

  /** The step is no admin action on email `i` and no claim of it. */
  predicate PassesOver(l: Label, i: nat) {
    && !(l.Cancel? && l.id == i) && !(l.Requeue? && l.id == i)
    && !(l.Claim? && l.fate == Delivered && i in l.ids)
  }

  predicate Claims(l: Label) {
    l.Claim? && l.fate == Delivered
  }

  function ClaimCount(ls: seq<Label>): nat {
    if ls == [] then 0 else (if Claims(ls[0]) then 1 else 0) + ClaimCount(ls[1..])
  }

  /** Email `i` is queued and due earlier than the running tick, if one is running. */
  ghost predicate Waits(s: State, i: nat, due: string) {
    && i < |s.table| && s.table[i].status == Queued && s.table[i].nextAttemptAt == due
    && (s.worker != Idle ==> Less(due, FmtTime(s.now)))
  }

  // ---------------------------------------------------------------- a claim uses up the rows ahead

  lemma ClaimTakesAhead(t: Table, ids: seq<nat>, limit: nat, now: string, i: nat)
    requires IsClaim(t, ids, limit, now) && i < |t| && Due(t[i], now) && i !in ids
    ensures |ids| == limit && Elems(ids) <= Ahead(t, i)
    ensures Ahead(Claimed(t, ids, now), i) == Ahead(t, i) - Elems(ids)
    ensures |Ahead(Claimed(t, ids, now), i)| == |Ahead(t, i)| - limit
  {
    hide Leq;
    var due := DueIds(t, now);
    assert i in due;
    DistinctSize(ids);
    assert Elems(ids) <= due;
    if |ids| == |due| {
      assert Elems(ids) == due by {
        SameSize(Elems(ids), due);
      }
      assert false;
    }
    assert forall k :: k in ids ==> Leq(t[k].nextAttemptAt, t[i].nextAttemptAt);
    var t' := Claimed(t, ids, now);
    assert Ahead(t', i) == Ahead(t, i) - Elems(ids);
    assert |Ahead(t, i) - Elems(ids)| == |Ahead(t, i)| - |Elems(ids)| by {
      assert Ahead(t, i) == (Ahead(t, i) - Elems(ids)) + Elems(ids);
    }
  }

  lemma SameSize(a: set<nat>, b: set<nat>)
    requires a <= b && |a| == |b|
    ensures a == b
  {
    if x :| x in b && x !in a {
      assert a <= b - {x};
      FewerElements(a, b - {x});
    }
  }

  lemma FewerElements(a: set<nat>, b: set<nat>)
    requires a <= b
    ensures |a| <= |b|
  {
    assert b == a + (b - a);
  }

  // ---------------------------------------------------------------- one step

  lemma SendingHasJob(s: State, s': State)
    requires NoStrandedRows(s) && |s'.table| >= |s.table|
    requires forall i :: 0 <= i < |s'.table| && s'.table[i].status == Sending ==>
      i < |s.table| && s.table[i].status == Sending
    requires s'.jobs == s.jobs
    ensures NoStrandedRows(s')
  {
  }

  lemma GoStrandsNothing(c: Config, s: State, j: nat, a: Action)
    requires NoStrandedRows(s) && Enabled(c, s, Go(j, a))
    ensures NoStrandedRows(Gone(s, j, a))
  {
    var s' := Gone(s, j, a);
    forall i | 0 <= i < |s'.table| && s'.table[i].status == Sending
      ensures exists k :: 0 <= k < |s'.jobs| && s'.jobs[k].id == i && Unmarked(s'.jobs[k].phase)
    {
      var k :| 0 <= k < |s.jobs| && s.jobs[k].id == i && Unmarked(s.jobs[k].phase);
      assert s'.jobs[k].id == i && Unmarked(s'.jobs[k].phase);
    }
  }

  lemma MarkStrandsNothing(s: State, j: nat, text: string)
    requires FlightsOwnRows(s) && NoStrandedRows(s) && JobAt(s, j) && s.jobs[j].phase.Recorded?
    ensures NoStrandedRows(Marked(s, j, true, text))
  {
    hide FmtTime;
    var s' := Marked(s, j, true, text);
    forall i | 0 <= i < |s'.table| && s'.table[i].status == Sending
      ensures exists k :: 0 <= k < |s'.jobs| && s'.jobs[k].id == i && Unmarked(s'.jobs[k].phase)
    {
      var k :| 0 <= k < |s.jobs| && s.jobs[k].id == i && Unmarked(s.jobs[k].phase);
      assert s'.jobs[k] == s.jobs[k];
    }
  }

  lemma ClaimStrandsNothing(c: Config, s: State, ids: seq<nat>)
    requires FlightsOwnRows(s) && NoStrandedRows(s) && Enabled(c, s, Claim(ids, Delivered))
    ensures NoStrandedRows(Apply(c, s, Claim(ids, Delivered)))
  {
    hide FmtTime, Leq;
    ClaimInRange(s.table, ids, Batch(c), FmtTime(s.now));
    var s' := Apply(c, s, Claim(ids, Delivered));
    forall i | 0 <= i < |s'.table| && s'.table[i].status == Sending
      ensures exists k :: 0 <= k < |s'.jobs| && s'.jobs[k].id == i && Unmarked(s'.jobs[k].phase)
    {
      var k :| 0 <= k < |ids| && ids[k] == i;
      assert s'.jobs[k].id == i && s'.jobs[k].phase == Spawned;
    }
  }

  lemma NothingStranded(c: Config, s: State, l: Label)
    requires FlightsOwnRows(s) && NoStrandedRows(s) && Enabled(c, s, l) && Clean(l)
    ensures NoStrandedRows(Apply(c, s, l))
  {
    hide FmtTime, Leq;
    match l
    case Go(j, a) => GoStrandsNothing(c, s, j, a);
    case Mark(j, ok, text) => MarkStrandsNothing(s, j, text);
    case Claim(ids, fate) =>
      if fate == Delivered {
        ClaimStrandsNothing(c, s, ids);
      }
    case TickEnd =>
    case Crash =>
    case Enqueue(e, at) => SendingHasJob(s, Apply(c, s, l));
    case Cancel(id) => SendingHasJob(s, Apply(c, s, l));
    case Requeue(id, newTo, newToName, at) => SendingHasJob(s, Apply(c, s, l));
    case TickStart(now, ok) => SendingHasJob(s, Apply(c, s, l));
  }

  /** A retry is due after the tick it was decided in. */
  lemma RetryIsLater(s: State, snap: Email, due: string)
    requires Less(due, FmtTime(s.now)) && FourDigitYear(Seconds(s.now) + 86_400)
    requires NextAttempt(snap.attempts + 1, s.now).Some?
    ensures Less(due, FmtTime(NextAttempt(snap.attempts + 1, s.now).value))
  {
    hide FmtSeconds, FourDigitYear, Less;
    RetrySecond(snap.attempts + 1, s.now);
    var next := NextAttempt(snap.attempts + 1, s.now).value;
    SecondsMonotone(Seconds(next), Seconds(s.now) + 86_400);
    SecondsMonotone(Seconds(s.now), Seconds(s.now) + 86_400);
    FmtOrder(Seconds(s.now), Seconds(next));
    LessTransitive(due, FmtTime(s.now), FmtTime(next));
  }

  lemma MarkAddsNoneAhead(s: State, j: nat, text: string, i: nat, due: string)
    requires FlightsOwnRows(s) && JobAt(s, j) && s.jobs[j].phase.Recorded? && Waits(s, i, due)
    ensures Waits(Marked(s, j, true, text), i, due)
    ensures |Ahead(Marked(s, j, true, text).table, i)| <= |Ahead(s.table, i)|
  {
    hide FmtTime, Less;
    var job := s.jobs[j];
    if job.phase.outcome == Temporary && NextAttempt(job.snap.attempts + 1, s.now).Some? {
      RetryIsLater(s, job.snap, due);
    }
    FewerElements(Ahead(Marked(s, j, true, text).table, i), Ahead(s.table, i));
  }

  lemma EnvironmentAddsNoneAhead(c: Config, s: State, l: Label, i: nat, due: string)
    requires Enabled(c, s, l) && (l.Enqueue? || l.Cancel? || l.Requeue?)
    requires Waits(s, i, due) && Later(l, due) && PassesOver(l, i)
    ensures Waits(Apply(c, s, l), i, due)
    ensures |Ahead(Apply(c, s, l).table, i)| <= |Ahead(s.table, i)|
  {
    hide FmtTime, Less;
    FewerElements(Ahead(Apply(c, s, l).table, i), Ahead(s.table, i));
  }

  lemma TickStartAddsNoneAhead(c: Config, s: State, now: Instant, ok: bool, i: nat, due: string)
    requires FlightsOwnRows(s) && NoStrandedRows(s) && Enabled(c, s, TickStart(now, ok))
    requires Waits(s, i, due) && Less(due, FmtTime(now))
    ensures Waits(Apply(c, s, TickStart(now, ok)), i, due)
    ensures Apply(c, s, TickStart(now, ok)).table == s.table
  {
    hide FmtTime, Less;
  }

  /** One step: nothing gets ahead of the waiting email, and a claim that passes it over removes a
      whole batch from ahead of it. */
  lemma OvertakingStep(c: Config, s: State, l: Label, i: nat, due: string)
    requires FlightsOwnRows(s) && NoStrandedRows(s) && Enabled(c, s, l)
    requires Waits(s, i, due) && Clean(l) && Later(l, due) && PassesOver(l, i)
    ensures Waits(Apply(c, s, l), i, due)
    ensures |Ahead(Apply(c, s, l).table, i)| + (if Claims(l) then Batch(c) else 0) <= |Ahead(s.table, i)|
  {
    hide FmtTime, Less, Ahead, Marked, Gone, FourDigitYear;
    match l
    case Claim(ids, fate) => ClaimPassesOver(c, s, ids, fate, i, due);
    case Mark(j, ok, text) => MarkAddsNoneAhead(s, j, text, i, due);
    case Go(j, a) => GoAddsNoneAhead(s, j, a, i, due);
    case TickStart(now, ok) => TickStartAddsNoneAhead(c, s, now, ok, i, due);
    case TickEnd =>
    case Crash =>
    case Enqueue(e, at) => EnvironmentAddsNoneAhead(c, s, l, i, due);
    case Cancel(id) => EnvironmentAddsNoneAhead(c, s, l, i, due);
    case Requeue(id, newTo, newToName, at) => EnvironmentAddsNoneAhead(c, s, l, i, due);
  }

  lemma GoAddsNoneAhead(s: State, j: nat, a: Action, i: nat, due: string)
    requires JobAt(s, j) && Waits(s, i, due)
    ensures Waits(Gone(s, j, a), i, due) && Gone(s, j, a).table == s.table
  {
  }

  lemma ClaimPassesOver(c: Config, s: State, ids: seq<nat>, fate: ClaimFate, i: nat, due: string)
    requires Enabled(c, s, Claim(ids, fate)) && Waits(s, i, due) && fate != RowsLost
    requires fate == Delivered ==> i !in ids
    ensures var s' := Apply(c, s, Claim(ids, fate));
      && Waits(s', i, due)
      && |Ahead(s'.table, i)| + (if fate == Delivered then Batch(c) else 0) <= |Ahead(s.table, i)|
  {
    hide FmtTime;
    ClaimInRange(s.table, ids, Batch(c), FmtTime(s.now));
    if fate == Delivered {
      assert Due(s.table[i], FmtTime(s.now)) by {
        LessTotal(due, FmtTime(s.now));
      }
      ClaimTakesAhead(s.table, ids, Batch(c), FmtTime(s.now), i);
    }
  }

  // ---------------------------------------------------------------- whole runs

  ghost predicate Undisturbed(ls: seq<Label>, i: nat, due: string) {
    forall k :: 0 <= k < |ls| ==> Clean(ls[k]) && Later(ls[k], due) && PassesOver(ls[k], i)
  }

  lemma {:induction false} PassedOver(c: Config, s: State, ls: seq<Label>, i: nat, due: string)
    requires Inv(c, s) && NoStrandedRows(s) && Runs(c, s, ls)
    requires Waits(s, i, due) && Undisturbed(ls, i, due)
    ensures ClaimCount(ls) * Batch(c) <= |Ahead(s.table, i)|
    decreases |ls|
  {
    hide Inv, Enabled, Apply, Ahead, Waits, NoStrandedRows, Clean, Later, PassesOver, Batch;
    if ls != [] {
      var s' := Apply(c, s, ls[0]);
      assert Clean(ls[0]) && Later(ls[0], due) && PassesOver(ls[0], i);
      assert FlightsOwnRows(s) by { FlightsOf(c, s); }
      OvertakingStep(c, s, ls[0], i, due);
      NothingStranded(c, s, ls[0]);
      StepInv(c, s, ls[0]);
      assert i < |s.table| && i < |s'.table| by { WaitingRow(s, i, due); WaitingRow(s', i, due); }
      PassedOver(c, s', ls[1..], i, due);
      OneMoreClaim(ClaimCount(ls[1..]), if Claims(ls[0]) then 1 else 0, Batch(c));
    } else {
      assert i < |s.table| by { WaitingRow(s, i, due); }
    }
  }

  lemma FlightsOf(c: Config, s: State)
    requires Inv(c, s)
    ensures FlightsOwnRows(s)
  {
  }

  lemma WaitingRow(s: State, i: nat, due: string)
    requires Waits(s, i, due)
    ensures i < |s.table|
  {
  }

  lemma OneMoreClaim(n: nat, more: nat, batch: nat)
    requires more <= 1
    ensures (n + more) * batch == n * batch + if more == 1 then batch else 0
  {
  }

  function CeilDiv(m: nat, n: nat): nat
    requires n > 0
  {
    (m + n - 1) / n
  }

  /** Bounded overtaking. Let `m` be the queued emails due no later than email `i`, itself
      included, and let every time read from now on lie in a later second than `i` is due. If the
      run has no crash and no lost outcome, and the admin leaves `i` alone, then a run with
      ceil(m / batch) claims has claimed `i`. */
  lemma BoundedOvertaking(c: Config, s: State, ls: seq<Label>, i: nat)
    requires Inv(c, s) && NoStrandedRows(s) && Runs(c, s, ls)
    requires i < |s.table| && Waits(s, i, s.table[i].nextAttemptAt)
    requires forall k :: 0 <= k < |ls| ==>
      && Clean(ls[k]) && Later(ls[k], s.table[i].nextAttemptAt)
      && !(ls[k].Cancel? && ls[k].id == i) && !(ls[k].Requeue? && ls[k].id == i)
    requires ClaimCount(ls) >= CeilDiv(|Ahead(s.table, i)| + 1, Batch(c))
    ensures exists k :: 0 <= k < |ls| && Claims(ls[k]) && i in ls[k].ids
  {
    hide Inv, Runs, NoStrandedRows, Waits, Ahead, Clean, Later, ClaimCount;
    if !exists k :: 0 <= k < |ls| && Claims(ls[k]) && i in ls[k].ids {
      var due := s.table[i].nextAttemptAt;
      forall k | 0 <= k < |ls|
        ensures Clean(ls[k]) && Later(ls[k], due) && PassesOver(ls[k], i)
      {
      }
      PassedOver(c, s, ls, i, due);
      TooManyClaims(ClaimCount(ls), |Ahead(s.table, i)|, Batch(c));
    }
  }

  lemma TooManyClaims(claims: nat, ahead: nat, batch: nat)
    requires batch > 0 && claims >= CeilDiv(ahead + 1, batch)
    ensures claims * batch > ahead
  {
    var q := CeilDiv(ahead + 1, batch);
    assert q * batch >= ahead + 1;
    assert claims * batch >= q * batch;
  }
}
