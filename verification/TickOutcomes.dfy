/** What a whole tick does to an email it claimed, from the answers of the outside world to the row
    afterwards (internal/delivery/worker.go). */
module TickOutcomes {
  import opened Text
  import opened TimeText
  import opened Emails
  import opened Protocol
  import opened ProtocolInvariant
  import opened ProtocolRuns
  import opened Schedules
  import Stores

  /** The waiting times between attempts, in minutes: 1m, 5m, 15m, 1h, 4h, 12h, 24h. */
  const MINUTES: seq<nat> := [1, 5, 15, 60, 240, 720, 1_440]

  /** The domain loads and the Send reports that the message was accepted. */
  predicate SendSucceeds(w: World, j: nat) {
    w.domainOk(j) && w.reply(j) == Accepted
  }

  predicate SendRejected(w: World, j: nat) {
    w.domainOk(j) && w.reply(j) == Permanent
  }

  /** The row that a tick at `now` leaves of an email it claimed as `row` for goroutine `j`. */
  predicate Settles(row: Email, now: Instant, w: World, j: nat, after: Email) {
    if !w.writeOk(j) then after == row.(status := Sending, nextAttemptAt := FmtTime(now))
    else
      && SameMail(row, after) && after.attempts == row.attempts + 1
      && (if SendSucceeds(w, j) then
            && after.status == Sent && after.sentAt == w.text(j) && after.lastError == ""
            && after.nextAttemptAt == FmtTime(now)
          else if SendRejected(w, j) then
            && after.status == Failed && after.lastError == w.text(j)
            && after.nextAttemptAt == FmtTime(now) && after.sentAt == row.sentAt
          else if row.attempts < 7 then
            && after.status == Queued && after.lastError == w.text(j)
            && after.nextAttemptAt == FmtTime(now + MINUTES[row.attempts] * 60 * NANOS) && after.sentAt == row.sentAt
          else
            && after.status == Failed && after.lastError == "retries exhausted: " + w.text(j)
            && after.nextAttemptAt == FmtTime(now) && after.sentAt == row.sentAt)
  }

  /** The failure is reported: for a permanent one, or a temporary one at the eighth attempt. */
  predicate Reports(row: Email, w: World, j: nat) {
    && (SendRejected(w, j) || (!SendSucceeds(w, j) && row.attempts >= 7))
    && w.notifyOk(j) && !row.isSystem
  }

  predicate Touches(l: Label, id: nat) {
    (l.Cancel? && l.id == id) || (l.Requeue? && l.id == id)
  }

  /** Nobody else has a statement on this email. */
  ghost predicate Untouched(turns: seq<Turn>, id: nat) {
    forall k :: 0 <= k < |turns| && turns[k].Other? ==> !Touches(turns[k].l, id)
  }

  // ---------------------------------------------------------------- one goroutine through its tick

  /** How far goroutine `j` of the email `id`, claimed as `snap`, has got at time `at`. */
  ghost predicate Progress(s: State, w: World, j: nat, id: nat, snap: Email, at: Instant, was: bool) {
    && s.worker == Delivering && s.now == at && j < |s.jobs| && id < |s.table|
    && s.jobs[j].id == id && s.jobs[j].snap == snap
    && match s.jobs[j].phase
       case InSend => s.table[id] == snap && (id in s.pending <==> was) && w.domainOk(j)
       case Returned(o) => s.table[id] == snap && (id in s.pending <==> was) && o == Reply(w, j)
       case Recorded(o) => s.table[id] == snap && (id in s.pending <==> was) && o == Reply(w, j)
       case Notifying =>
         && Settles(snap, at, w, j, s.table[id]) && (id in s.pending <==> was)
         && (SendRejected(w, j) || (!SendSucceeds(w, j) && snap.attempts >= 7))
       case Releasing => Settled(s, w, j, id, snap, at, was)
       case Finished => Settled(s, w, j, id, snap, at, was)
       case _ => s.table[id] == snap && (id in s.pending <==> was)
  }

  ghost predicate Settled(s: State, w: World, j: nat, id: nat, snap: Email, at: Instant, was: bool) {
    && id < |s.table| && Settles(snap, at, w, j, s.table[id])
    && (id in s.pending <==> was || Reports(snap, w, j))
  }

  function Reply(w: World, j: nat): Outcome {
    if w.domainOk(j) then w.reply(j) else Temporary
  }

  lemma OwnMark(c: Config, s: State, w: World, j: nat, id: nat, snap: Email, at: Instant, was: bool)
    requires FlightsOwnRows(s) && Progress(s, w, j, id, snap, at, was) && s.jobs[j].phase.Recorded?
    requires Enabled(c, s, Mark(j, w.writeOk(j), w.text(j)))
    ensures Progress(Apply(c, s, Mark(j, w.writeOk(j), w.text(j))), w, j, id, snap, at, was)
  {
    hide FmtTime, FourDigitYear;
    assert snap.status == Sending && snap.nextAttemptAt == FmtTime(at);
    assert forall k: nat :: k < 7 ==> Backoff.SCHEDULE[k] == MINUTES[k] * 60;
  }

  lemma OwnGo(c: Config, s: State, w: World, j: nat, id: nat, snap: Email, at: Instant, was: bool)
    requires FlightsOwnRows(s) && Progress(s, w, j, id, snap, at, was) && !s.jobs[j].phase.Recorded?
    requires Enabled(c, s, MoveLabel(j, s.jobs[j].phase, w))
    ensures Progress(Apply(c, s, MoveLabel(j, s.jobs[j].phase, w)), w, j, id, snap, at, was)
  {
    hide FmtTime, FourDigitYear, SemsAfter, HistAfter;
  }

  lemma OthersStep(c: Config, s: State, w: World, l: Label, j: nat, id: nat, snap: Email, at: Instant, was: bool)
    requires FlightsOwnRows(s) && Progress(s, w, j, id, snap, at, was) && Enabled(c, s, l)
    requires (ByOthers(l) && !Touches(l, id)) || (l.Go? && l.j != j) || (l.Mark? && l.j != j)
    ensures Progress(Apply(c, s, l), w, j, id, snap, at, was)
  {
    hide FmtTime, FourDigitYear, SemsAfter, HistAfter, Settles, Reports, NewRow, RequeuedRow, OutcomeRow, Reply;
  }

  lemma ProgressStep(c: Config, s: State, w: World, turn: Turn, j: nat, id: nat, snap: Email, at: Instant, was: bool)
    requires FlightsOwnRows(s) && Progress(s, w, j, id, snap, at, was) && Enabled(c, s, TurnLabel(s, w, turn))
    requires turn.Other? ==> ByOthers(turn.l) && !Touches(turn.l, id)
    ensures Progress(Apply(c, s, TurnLabel(s, w, turn)), w, j, id, snap, at, was)
  {
    if turn == Goroutine(j) {
      hide Enabled, Apply, Progress, FlightsOwnRows;
      assert j < |s.jobs| by { ProgressJob(s, w, j, id, snap, at, was); }
      if s.jobs[j].phase.Recorded? {
        OwnMark(c, s, w, j, id, snap, at, was);
      } else {
        OwnGo(c, s, w, j, id, snap, at, was);
      }
    } else {
      hide Enabled, Apply, Progress, FlightsOwnRows;
      OthersStep(c, s, w, TurnLabel(s, w, turn), j, id, snap, at, was);
    }
  }

  lemma ProgressJob(s: State, w: World, j: nat, id: nat, snap: Email, at: Instant, was: bool)
    requires Progress(s, w, j, id, snap, at, was)
    ensures j < |s.jobs|
  {
  }

  lemma {:induction false} ProgressRun(c: Config, s: State, w: World, turns: seq<Turn>, j: nat, id: nat, snap: Email, at: Instant, was: bool)
    requires Inv(c, s) && Progress(s, w, j, id, snap, at, was) && IsSchedule(turns) && Untouched(turns, id)
    ensures Progress(Exec(c, s, Attempted(c, s, w, turns)), w, j, id, snap, at, was)
    decreases |turns|
  {
    if turns != [] {
      assert FlightsOwnRows(s);
      hide Inv, Enabled, Apply, Progress, FlightsOwnRows;
      var l := TurnLabel(s, w, turns[0]);
      if Enabled(c, s, l) {
        ProgressStep(c, s, w, turns[0], j, id, snap, at, was);
        StepInv(c, s, l);
        ProgressRun(c, Apply(c, s, l), w, turns[1..], j, id, snap, at, was);
      } else {
        ProgressRun(c, s, w, turns[1..], j, id, snap, at, was);
      }
    }
  }

  /** A tick, from its claim to its end: the row of a claimed email that nobody else has a statement
      on is settled by what its own goroutine was answered, under every schedule, and the email is
      pending exactly if it was or its failure is reported. */
  lemma ClaimedEmailSettles(c: Config, s: State, w: World, turns: seq<Turn>, j: nat)
    requires Inv(c, s) && s.worker == Delivering && j < |s.jobs| && s.jobs[j].phase == Spawned
    requires IsSchedule(turns) && Untouched(turns, s.jobs[j].id)
    requires Enabled(c, Exec(c, s, Attempted(c, s, w, turns)), TickEnd)
    ensures var (id, s') := (s.jobs[j].id, Exec(c, s, Attempted(c, s, w, turns)));
      && id < |s.table| && id < |s'.table|
      && Settles(s.table[id], s.now, w, j, s'.table[id])
      && (id in s'.pending <==> id in s.pending || Reports(s.table[id], w, j))
  {
    var id := s.jobs[j].id;
    assert s.table[id] == s.jobs[j].snap;
    ProgressRun(c, s, w, turns, j, id, s.table[id], s.now, id in s.pending);
  }

  lemma FollowsUntouched(turns: seq<Turn>, schedule: seq<Turn>, id: nat)
    requires Follows(turns, schedule) && IsSchedule(schedule) && Untouched(schedule, id)
    ensures IsSchedule(turns) && Untouched(turns, id)
  {
    assert forall k :: 0 <= k < |turns| && turns[k].Other? ==> k < |schedule| && turns[k] == schedule[k];
  }

  lemma AllFinished(c: Config, s: State)
    requires s.worker == Delivering && forall j :: 0 <= j < |s.jobs| ==> s.jobs[j].phase == Finished
    ensures Enabled(c, s, TickEnd)
  {
  }

  /** In `sending` since 45 minutes ago, by the second. */
  predicate IsStuck(e: Email, now: Instant) {
    e.status == Sending && Leq(e.nextAttemptAt, FmtTime(if now < 2_700 * NANOS then 0 else now - 2_700 * NANOS))
  }

  /** A row that a tick at `now` may claim: due, or stuck since a claim that is stale by now. */
  predicate Claimable(e: Email, now: Instant) {
    && (e.status == Queued || IsStuck(e, now))
    && Leq(e.nextAttemptAt, FmtTime(now))
  }

  /** Nothing due is left behind: every row that nobody else has a statement on and that is queued and
      due, or stuck in `sending` for 45 minutes, is claimed, unless the batch is full. */
  ghost predicate ClaimsWhatIsDue(c: Config, before: Table, ids: seq<nat>, at: Instant, staleOk: bool, others: seq<Turn>) {
    forall id: nat :: id < |before| && Untouched(others, id) && IsOwed(before[id], at, staleOk)
      ==> id in ids || |ids| == if c.batchSize == 0 then 10 else c.batchSize
  }

  predicate IsOwed(e: Email, at: Instant, staleOk: bool) {
    && Leq(e.nextAttemptAt, FmtTime(at))
    && (e.status == Queued || (staleOk && IsStuck(e, at)))
  }

  /** The email's row and its pending mark are what its goroutine's answers make of the row before. */
  ghost predicate EndsAsAnswered(
    before: Table, pendingBefore: set<nat>, after: Table, pendingAfter: set<nat>, w: World, j: nat, id: nat, at: Instant)
  {
    && id < |before| && id < |after|
    && Settles(before[id], at, w, j, after[id])
    && (id in pendingAfter <==> id in pendingBefore || Reports(before[id], w, j))
  }

  /** So ends every claimed email, from its claim on, that nobody else has a statement on. */
  ghost predicate ClaimedEndAsAnswered(
    claimed: Table, pendingBefore: set<nat>, after: Table, pendingAfter: set<nat>,
    w: World, others: seq<Turn>, ids: seq<nat>, at: Instant)
  {
    forall k :: 0 <= k < |ids| && Untouched(others, ids[k]) ==>
      EndsAsAnswered(claimed, pendingBefore, after, pendingAfter, w, k, ids[k], at)
  }

  /** And so it ends from the start of the tick on; it was due then, or stuck in `sending`. */
  ghost predicate UndisturbedEndAsAnswered(
    before: Table, pendingBefore: set<nat>, after: Table, pendingAfter: set<nat>,
    w: World, others: seq<Turn>, ids: seq<nat>, at: Instant)
  {
    forall k :: 0 <= k < |ids| && ids[k] < |before| && Untouched(others, ids[k]) ==>
      Claimable(before[ids[k]], at) && EndsAsAnswered(before, pendingBefore, after, pendingAfter, w, k, ids[k], at)
  }

  lemma TickAnswers(c: Config, s: State, w: World, turns: seq<Turn>, schedule: seq<Turn>, ids: seq<nat>)
    requires Inv(c, s) && s.worker == Delivering
    requires (forall k :: 0 <= k < |ids| ==> ids[k] < |s.table|) && s.jobs == Spawn(s.table, ids)
    requires Follows(turns, schedule) && IsSchedule(schedule)
    requires Enabled(c, Exec(c, s, Attempted(c, s, w, turns)), TickEnd)
    ensures var s' := Exec(c, s, Attempted(c, s, w, turns));
      ClaimedEndAsAnswered(s.table, s.pending, s'.table, s'.pending, w, schedule, ids, s.now)
  {
    hide Inv, Enabled, Settles, Reports, Untouched, Attempted;
    forall k | 0 <= k < |ids| && Untouched(schedule, ids[k])
      ensures var s' := Exec(c, s, Attempted(c, s, w, turns));
        EndsAsAnswered(s.table, s.pending, s'.table, s'.pending, w, k, ids[k], s.now)
    {
      FollowsUntouched(turns, schedule, ids[k]);
      ClaimedEmailSettles(c, s, w, turns, k);
    }
  }

  lemma SettlesFromBefore(row: Email, now: Instant, w: World, j: nat, after: Email)
    requires Settles(row.(status := Sending, nextAttemptAt := FmtTime(now)), now, w, j, after)
    ensures Settles(row, now, w, j, after)
    ensures Reports(row.(status := Sending, nextAttemptAt := FmtTime(now)), w, j) == Reports(row, w, j)
  {
    hide FmtTime;
  }

  lemma UndisturbedAnswers(before: Table, s: State, s': State, w: World, between: seq<Turn>, schedule: seq<Turn>, ids: seq<nat>, at: Instant)
    requires ClaimedEndAsAnswered(s.table, s.pending, s'.table, s'.pending, w, schedule, ids, at)
    requires forall k :: 0 <= k < |ids| ==> ids[k] < |s.table|
    requires forall k :: 0 <= k < |ids| && ids[k] < |before| && Untouched(between, ids[k]) ==>
      && Claimable(before[ids[k]], at)
      && s.table[ids[k]] == before[ids[k]].(status := Sending, nextAttemptAt := FmtTime(at))
    ensures UndisturbedEndAsAnswered(before, s.pending, s'.table, s'.pending, w, between + schedule, ids, at)
  {
    hide FmtTime, Settles, Reports, Claimable;
    forall k | 0 <= k < |ids| && ids[k] < |before| && Untouched(between + schedule, ids[k])
      ensures Claimable(before[ids[k]], at) && EndsAsAnswered(before, s.pending, s'.table, s'.pending, w, k, ids[k], at)
    {
      UntouchedParts(between, schedule, ids[k]);
      hide Untouched;
      SettlesFromBefore(before[ids[k]], at, w, k, s'.table[ids[k]]);
    }
  }

  lemma UntouchedParts(a: seq<Turn>, b: seq<Turn>, id: nat)
    requires Untouched(a + b, id)
    ensures Untouched(a, id) && Untouched(b, id)
  {
    assert forall k :: 0 <= k < |a| ==> (a + b)[k] == a[k];
    assert forall k :: 0 <= k < |b| ==> (a + b)[|a| + k] == b[k];
  }

  /** The choice of a claim: due rows, each once, and all of them unless the batch is full. */
  ghost predicate ClaimChosen(t: Table, ids: seq<nat>, limit: nat, at: string) {
    && |ids| <= limit && Distinct(ids)
    && (forall k :: 0 <= k < |ids| ==> ids[k] < |t| && Due(t[ids[k]], at))
    && (forall id: nat :: id < |t| && Due(t[id], at) ==> id in ids || |ids| == limit)
  }

  /** The write of a claim: the chosen rows are stamped `sending`, and no other row changes. */
  ghost predicate ClaimWritten(t: Table, t': Table, ids: seq<nat>, at: string) {
    && |t'| == |t|
    && (forall id: nat :: id < |t| && id !in ids ==> t'[id] == t[id])
    && (forall k :: 0 <= k < |ids| && ids[k] < |t| ==> t'[ids[k]] == t[ids[k]].(status := Sending, nextAttemptAt := at))
  }

  lemma ClaimFits(t: Table, ids: seq<nat>, limit: nat, at: string)
    requires IsClaim(t, ids, limit, at)
    ensures ClaimChosen(t, ids, limit, at) && ClaimWritten(t, Claimed(t, ids, at), ids, at)
  {
    ClaimInRange(t, ids, limit, at);
    Stores.ClaimSays(t, ids, limit, at);
    assert forall k :: 0 <= k < |ids| ==> ids[k] in ids;
  }

  /** Rows that no statement in between is about stay as they are. */
  ghost predicate KeepsUntouched(t: Table, t': Table, turns: seq<Turn>) {
    |t| <= |t'| && forall id: nat :: id < |t| && Untouched(turns, id) ==> t'[id] == t[id]
  }

  /** From the start of the tick over the stale requeue and the statements of others to the claim. */
  lemma TickClaims(c: Config, before: Table, released: Table, mid: Table, ids: seq<nat>, at: Instant, staleOk: bool, between: seq<Turn>)
    requires released == if staleOk then StaleReleased(before, FmtTime(Cutoff(at))) else before
    requires KeepsUntouched(released, mid, between)
    requires ClaimChosen(mid, ids, Batch(c), FmtTime(at))
    ensures ClaimsWhatIsDue(c, before, ids, at, staleOk, between)
    ensures OthersStay(before, mid, [], at, staleOk, between) && OthersStay(before, mid, ids, at, staleOk, between)
    ensures forall k :: 0 <= k < |ids| && ids[k] < |before| && Untouched(between, ids[k]) ==>
      && Claimable(before[ids[k]], at)
      && mid[ids[k]].(status := Sending, nextAttemptAt := FmtTime(at))
         == before[ids[k]].(status := Sending, nextAttemptAt := FmtTime(at))
  {
    hide FmtTime, Leq, Untouched;
  }

  // ---------------------------------------------------------------- rows that were not claimed

  /** What a tick makes of a row it does not claim: a stuck one is queued again. */
  function Unstuck(e: Email, at: Instant, staleOk: bool): Email {
    if staleOk && IsStuck(e, at) then e.(status := Queued) else e
  }

  /** Every row that is not claimed and that nobody else has a statement on stays, but for the release
      of stuck rows. */
  ghost predicate OthersStay(before: Table, after: Table, ids: seq<nat>, at: Instant, staleOk: bool, others: seq<Turn>) {
    |before| <= |after| && forall id: nat :: id < |before| && id !in ids && Untouched(others, id) ==>
      after[id] == Unstuck(before[id], at, staleOk)
  }

  /** A claim whose rows do not reach the worker leaves them in `sending`, with nobody to send them. */
  ghost predicate ClaimedAreStuck(before: Table, after: Table, ids: seq<nat>, at: Instant, others: seq<Turn>) {
    forall k :: 0 <= k < |ids| && ids[k] < |before| && Untouched(others, ids[k]) ==>
      ids[k] < |after| && after[ids[k]] == before[ids[k]].(status := Sending, nextAttemptAt := FmtTime(at))
  }

  lemma TurnSparesOthers(c: Config, s: State, w: World, turn: Turn, id: nat)
    requires FlightsOwnRows(s) && Enabled(c, s, TurnLabel(s, w, turn)) && id < |s.table|
    requires turn.Other? ==> ByOthers(turn.l) && !Touches(turn.l, id)
    requires forall j :: 0 <= j < |s.jobs| ==> s.jobs[j].id != id
    ensures var s' := Apply(c, s, TurnLabel(s, w, turn));
      && id < |s'.table| && s'.table[id] == s.table[id]
      && forall j :: 0 <= j < |s'.jobs| ==> s'.jobs[j].id != id
  {
    hide FmtTime, FourDigitYear, SemsAfter, HistAfter, NewRow, RequeuedRow, OutcomeRow;
  }

  lemma {:induction false} RunSparesOthers(c: Config, s: State, w: World, turns: seq<Turn>, id: nat)
    requires Inv(c, s) && id < |s.table| && IsSchedule(turns) && Untouched(turns, id)
    requires forall j :: 0 <= j < |s.jobs| ==> s.jobs[j].id != id
    ensures var s' := Exec(c, s, Attempted(c, s, w, turns)); id < |s'.table| && s'.table[id] == s.table[id]
    decreases |turns|
  {
    if turns != [] {
      assert FlightsOwnRows(s);
      hide Inv, Enabled, Apply, FlightsOwnRows;
      var l := TurnLabel(s, w, turns[0]);
      if Enabled(c, s, l) {
        TurnSparesOthers(c, s, w, turns[0], id);
        StepInv(c, s, l);
        RunSparesOthers(c, Apply(c, s, l), w, turns[1..], id);
      } else {
        RunSparesOthers(c, s, w, turns[1..], id);
      }
    }
  }

  lemma {:induction false} TableGrows(c: Config, s: State, ls: seq<Label>)
    requires Runs(c, s, ls)
    ensures |s.table| <= |Exec(c, s, ls).table|
    decreases |ls|
  {
    if ls != [] {
      assert |s.table| <= |Apply(c, s, ls[0]).table| by {
        hide FmtTime, IsClaim, AcceptedInFlight;
      }
      hide Enabled, Apply;
      TableGrows(c, Apply(c, s, ls[0]), ls[1..]);
    }
  }

  lemma TickSparesOthers(c: Config, before: Table, s: State, w: World, turns: seq<Turn>, schedule: seq<Turn>, between: seq<Turn>, ids: seq<nat>, at: Instant)
    requires Inv(c, s) && Follows(turns, schedule) && IsSchedule(schedule)
    requires (forall k :: 0 <= k < |ids| ==> ids[k] < |s.table|) && s.jobs == Spawn(s.table, ids)
    requires OthersStay(before, s.table, ids, at, w.staleOk, between)
    ensures OthersStay(before, Exec(c, s, Attempted(c, s, w, turns)).table, ids, at, w.staleOk, between + schedule)
  {
    hide Inv, Unstuck, Attempted;
    TableGrows(c, s, Attempted(c, s, w, turns));
    forall id: nat | id < |before| && id !in ids && Untouched(between + schedule, id)
      ensures var s' := Exec(c, s, Attempted(c, s, w, turns)); id < |s'.table| && s'.table[id] == Unstuck(before[id], at, w.staleOk)
    {
      UntouchedParts(between, schedule, id);
      FollowsUntouched(turns, schedule, id);
      hide Untouched;
      RunSparesOthers(c, s, w, turns, id);
    }
  }

  lemma StaySoFar(before: Table, after: Table, ids: seq<nat>, at: Instant, staleOk: bool, between: seq<Turn>, schedule: seq<Turn>)
    requires OthersStay(before, after, ids, at, staleOk, between)
    ensures OthersStay(before, after, ids, at, staleOk, between + schedule)
  {
    hide Unstuck;
    forall id: nat | Untouched(between + schedule, id) ensures Untouched(between, id) {
      UntouchedParts(between, schedule, id);
    }
  }

  lemma ClaimLeaves(before: Table, mid: Table, after: Table, ids: seq<nat>, at: Instant, staleOk: bool, fate: ClaimFate, between: seq<Turn>)
    requires OthersStay(before, mid, ids, at, staleOk, between) && OthersStay(before, mid, [], at, staleOk, between)
    requires if fate == Refused then after == mid else ClaimWritten(mid, after, ids, FmtTime(at))
    requires forall k :: 0 <= k < |ids| ==> ids[k] < |mid|
    requires forall k :: 0 <= k < |ids| && ids[k] < |before| && Untouched(between, ids[k]) ==>
      mid[ids[k]].(status := Sending, nextAttemptAt := FmtTime(at)) == before[ids[k]].(status := Sending, nextAttemptAt := FmtTime(at))
    ensures fate != Refused ==> ClaimedAreStuck(before, after, ids, at, between) && OthersStay(before, after, ids, at, staleOk, between)
    ensures fate == Refused ==> OthersStay(before, after, [], at, staleOk, between)
  {
    hide FmtTime, Unstuck, Untouched;
  }
}
