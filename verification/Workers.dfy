/** The worker object (internal/delivery/worker.go): one `Tick` with its delivery goroutines, the
    channel map `sems`, and the statements of other actors in between. Every method is shown to
    take only steps of the delivery protocol. */
module Workers {
  import opened Text
  import opened TimeText
  import opened Backoff
  import opened Emails
  import opened Stores
  import opened Protocol
  import opened ProtocolInvariant
  import opened ProtocolRuns
  import opened Schedules
  import opened TickOutcomes

  lemma StatementKeeps(c: Config, s: State, l: Label)
    requires ByOthers(l) && Enabled(c, s, l)
    ensures |s.table| <= |Apply(c, s, l).table|
    ensures forall id: nat :: id < |s.table| && !Touches(l, id) ==> Apply(c, s, l).table[id] == s.table[id]
  {
    hide NewRow, RequeuedRow;
  }

  class Worker {
    const c: Config
    const store: Store
    var pc: WorkerPc
    var now: Instant
    var jobs: seq<Job>
    var sems: map<string, nat>
    ghost var hist: seq<Hist>

    constructor (c: Config, store: Store)
      requires store.emails == [] && store.pending == {}
      ensures this.store == store && Sys() == INITIAL && Inv(c, Sys())
    {
      this.c, this.store := c, store;
      pc, now, jobs, sems, hist := Idle, 0, [], map[], [];
    }

    /** The protocol state this object and its database stand for. */
    ghost function Sys(): State
      reads this, store
    {
      State(store.emails, store.pending, pc, now, jobs, sems, hist)
    }

    /** A statement of the API or the admin. An insert whose key is taken fails and does nothing. */
    method Others(l: Label) returns (happened: bool)
      requires ByOthers(l) && Inv(c, Sys())
      modifies this`hist, store`emails
      ensures happened <==> Enabled(c, old(Sys()), l)
      ensures Sys() == if happened then Apply(c, old(Sys()), l) else old(Sys())
      ensures Inv(c, Sys())
    {
      hide Inv, NewRow, RequeuedRow;
      happened := true;
      match l {
        case Enqueue(e, at) =>
          var id := store.EnqueueEmail(e, at);
          happened := id.Some?;
          if happened {
            hist := hist + [Hist(e.to, 0, 0, 0)];
          }
        case Cancel(id) => var _ := store.CancelEmail(id);
        case Requeue(id, newTo, newToName, at) => var _ := store.RequeueEmail(id, newTo, newToName, at);
      }
      if happened {
        StepInv(c, old(Sys()), l);
      }
    }

    /** One step of goroutine `j`, in the order of the goroutine's code. */
    method Move(j: nat, w: World) returns (moved: bool, ghost l: Label)
      requires FlightsOwnRows(Sys()) && TokensCounted(c, Sys())
      requires pc == Delivering && j < |jobs|
      modifies this`jobs, this`sems, this`hist, store`emails, store`pending
      ensures moved <==> !Blocked(c, old(sems), old(jobs)[j])
      ensures l == MoveLabel(j, old(jobs)[j].phase, w) && WorkerStep(l)
      ensures moved <==> Enabled(c, old(Sys()), l)
      ensures moved ==> Sys() == Apply(c, old(Sys()), l)
      ensures !moved ==> Sys() == old(Sys())
    {
      hide FmtTime, RcptDomain, FourDigitYear;
      var phase := jobs[j].phase;
      moved, l := !Blocked(c, sems, jobs[j]), MoveLabel(j, phase, w);
      if moved {
        if phase.Recorded? {
          WriteOutcome(j, w.writeOk(j), w.text(j));
        } else {
          var a := match phase {
            case Spawned => GetSem
            case Waiting => Acquire
            case Holding => if w.domainOk(j) then SendStart else DomainFails
            case InSend => SendEnd(w.reply(j))
            case Returned(_) => Record
            case Notifying => Notify(w.notifyOk(j))
            case _ => Release
          };
          HolderCounted(j);
          Act(j, a);
        }
      }
    }

    lemma HolderCounted(j: nat)
      requires TokensCounted(c, Sys()) && j < |jobs|
      ensures HoldsToken(jobs[j].phase) ==> Tokens(sems, DomainOf(jobs[j])) > 0
    {
      hide RcptDomain;
      if HoldsToken(jobs[j].phase) {
        HolderCounts(jobs, j);
        assert Tokens(sems, DomainOf(jobs[j])) == Holders(jobs, DomainOf(jobs[j]));
      }
    }

    /** The channel map: a channel is created on first use, a token is put in or taken out. */
    method UseChannel(domain: string, a: Action)
      requires a == Release ==> Tokens(sems, domain) > 0
      modifies this`sems
      ensures sems == SemsAfter(old(sems), domain, a)
    {
      match a {
        case GetSem =>
          if domain !in sems {
            sems := sems[domain := 0];
          }
        case Acquire => sems := sems[domain := Tokens(sems, domain) + 1];
        case Release => sems := sems[domain := sems[domain] - 1];
        case _ =>
      }
    }

    /** A goroutine step other than the outcome write. */
    method Act(j: nat, a: Action)
      requires JobAt(Sys(), j) && CanGo(c, sems, jobs[j], a)
      modifies this`jobs, this`sems, this`hist, store`pending
      ensures Enabled(c, old(Sys()), Go(j, a)) && Sys() == Apply(c, old(Sys()), Go(j, a))
    {
      hide FmtTime, RcptDomain, FourDigitYear, SemsAfter, Unmarked;
      var job := jobs[j];
      UseChannel(DomainOf(job), a);
      if a == Notify(true) && !store.emails[job.id].isSystem {
        store.AddPendingFailure(job.id);
      }
      jobs := jobs[j := job.(phase := NextPhase(job.phase, a))];
      hist := hist[job.id := HistAfter(hist[job.id], a)];
      assert Sys() == Gone(old(Sys()), j, a);
    }

    /** The end of `process`: MarkSent, markFailed or retryOrFail, by the outcome. */
    method WriteOutcome(j: nat, ok: bool, text: string)
      requires JobAt(Sys(), j) && jobs[j].phase.Recorded?
      modifies this`jobs, this`hist, store`emails
      ensures Enabled(c, old(Sys()), Mark(j, ok, text)) && Sys() == Apply(c, old(Sys()), Mark(j, ok, text))
    {
      hide FmtTime, FourDigitYear;
      var job := jobs[j];
      var o := job.phase.outcome;
      var failed := false;
      match o {
        case Accepted =>
          if ok {
            store.MarkSent(job.id, text);
          }
        case Permanent =>
          failed := true;
          if ok {
            store.MarkFailed(job.id, text);
          }
        case Temporary =>
          match NextAttempt(job.snap.attempts + 1, now) {
            case None =>
              failed := true;
              if ok {
                store.MarkFailed(job.id, "retries exhausted: " + text);
              }
            case Some(next) =>
              if ok {
                store.MarkRetry(job.id, FmtTime(next), text);
              }
          }
      }
      jobs := jobs[j := job.(phase := if failed then Notifying else Releasing)];
      hist := hist[job.id := HistMarked(hist[job.id], job.snap, now, o, ok)];
      assert Sys() == Marked(old(Sys()), j, ok, text);
    }

    /** The requeue of stale rows and the claim; `spawned` tells whether goroutines were started. */
    method StartTick(at: Instant, w: World, between: seq<Turn>)
      returns (spawned: bool, ghost ids: seq<nat>, ghost trace: seq<Label>)
      requires Inv(c, Sys()) && pc == Idle && FourDigitYear(Seconds(at) + 86_400) && Statements(between)
      modifies this, store`emails
      ensures Inv(c, Sys()) && Enabled(c, old(Sys()), TickStart(at, w.staleOk))
      ensures trace == Opening(c, old(Sys()), at, w, between, ids)
      ensures Runs(c, old(Sys()), trace) && Sys() == Exec(c, old(Sys()), trace)
      ensures spawned <==> w.claim == Delivered
      ensures now == at && pc == if spawned then Delivering else Idle
      ensures !spawned ==> jobs == []
      ensures |ids| <= (if c.batchSize == 0 then 10 else c.batchSize) && Distinct(ids)
      ensures spawned ==> (forall k :: 0 <= k < |ids| ==> ids[k] < |store.emails|) && jobs == Spawn(store.emails, ids)
      ensures forall k :: 0 <= k < |ids| && ids[k] < |old(store.emails)| && Untouched(between, ids[k]) ==>
        Claimable(old(store.emails)[ids[k]], at)
      ensures w.claim != Refused ==> ClaimedAreStuck(old(store.emails), store.emails, ids, at, between)
      ensures w.claim != Refused ==> OthersStay(old(store.emails), store.emails, ids, at, w.staleOk, between)
      ensures w.claim == Refused ==> OthersStay(old(store.emails), store.emails, [], at, w.staleOk, between)
      ensures ClaimsWhatIsDue(c, old(store.emails), ids, at, w.staleOk, between)
    {
      hide Inv, FmtTime, FourDigitYear, IsClaim, NewRow, Attempted, Untouched, Leq, ClaimsWhatIsDue, Claimable, KeepsUntouched;
      hide OthersStay, ClaimedAreStuck, ClaimWritten;
      ghost var s0 := Sys();
      if w.staleOk {
        var _ := store.RequeueStaleSending(FmtTime(Cutoff(at)));
      }
      pc, now := Claiming, at;
      assert Enabled(c, s0, TickStart(at, w.staleOk)) && Sys() == Apply(c, s0, TickStart(at, w.staleOk));
      StepInv(c, s0, TickStart(at, w.staleOk));
      ghost var s1 := Sys();
      OthersMeanwhile(w, between);
      ghost var t := store.emails;
      ghost var mid := Attempted(c, s1, w, between);
      ids := ClaimRows(w.claim);
      TickClaims(c, s0.table, s1.table, t, ids, at, w.staleOk, between);
      ClaimLeaves(s0.table, t, store.emails, ids, at, w.staleOk, w.claim, between);
      RunsSnoc(c, s1, mid, Claim(ids, w.claim));
      trace := [TickStart(at, w.staleOk)] + mid + [Claim(ids, w.claim)];
      assert trace[0] == TickStart(at, w.staleOk) && trace[1..] == mid + [Claim(ids, w.claim)];
      spawned := w.claim == Delivered;
      if !spawned {
        IdleHasNoJobs(c, Sys());
      }
    }

    /** Statements of others between the stale requeue and the claim. */
    method OthersMeanwhile(w: World, between: seq<Turn>)
      requires Inv(c, Sys()) && pc == Claiming && Statements(between)
      modifies this`hist, store`emails
      ensures Inv(c, Sys())
      ensures Sys() == Exec(c, old(Sys()), Attempted(c, old(Sys()), w, between))
      ensures KeepsUntouched(old(store.emails), store.emails, between)
    {
      hide Inv, Enabled, Apply, Attempted;
      ghost var s := Sys();
      assert between[..0] == [];
      NothingAttempted(c, s, w);
      for i := 0 to |between|
        invariant Inv(c, Sys()) && Sys() == Exec(c, s, Attempted(c, s, w, between[..i]))
        invariant KeepsUntouched(old(store.emails), store.emails, between)
      {
        var turn := between[i];
        ghost var was := Sys();
        var happened := Others(turn.l);
        if happened {
          StatementKeeps(c, was, turn.l);
        }
        AttemptedSnoc(c, s, w, between[..i], turn);
        assert between[..i + 1] == between[..i] + [turn];
      }
      assert between[..|between|] == between;
    }

    method ClaimRows(fate: ClaimFate) returns (ghost ids: seq<nat>)
      requires Inv(c, Sys()) && pc == Claiming
      modifies this`pc, this`jobs, this`sems, store`emails
      ensures Enabled(c, old(Sys()), Claim(ids, fate)) && Sys() == Apply(c, old(Sys()), Claim(ids, fate))
      ensures Inv(c, Sys())
      ensures pc == if fate == Delivered then Delivering else Idle
      ensures ClaimChosen(old(store.emails), ids, Batch(c), FmtTime(now))
      ensures if fate == Refused then store.emails == old(store.emails)
              else ClaimWritten(old(store.emails), store.emails, ids, FmtTime(now))
      ensures fate == Delivered ==> (forall k :: 0 <= k < |ids| ==> ids[k] < |store.emails|) && jobs == Spawn(store.emails, ids)
    {
      hide FmtTime, Inv, IsClaim, Claimed, ClaimChosen, ClaimWritten, Due;
      ghost var s := Sys();
      if fate == Refused {
        ids := ClaimExists(store.emails, Batch(c), FmtTime(now));
        pc := Idle;
      } else {
        var claimed, rows := store.ClaimDue(Batch(c), FmtTime(now));
        ids := claimed;
        if fate == Delivered {
          SpawnAll(claimed, rows);
        } else {
          pc := Idle;
        }
      }
      ClaimInRange(s.table, ids, Batch(c), FmtTime(now));
      ClaimFits(s.table, ids, Batch(c), FmtTime(now));
      assert Sys() == AfterClaim(s, ids, fate);
      StepInv(c, s, Claim(ids, fate));
    }

    /** Starts one goroutine for each claimed row. */
    method SpawnAll(ids: seq<nat>, rows: seq<Email>)
      requires |rows| == |ids|
      requires forall k :: 0 <= k < |ids| ==> ids[k] < |store.emails| && rows[k] == store.emails[ids[k]]
      modifies this`pc, this`jobs, this`sems
      ensures pc == Delivering && sems == map[] && jobs == Spawn(store.emails, ids)
    {
      pc, jobs, sems := Delivering, [], map[];
      for k := 0 to |rows|
        invariant pc == Delivering && sems == map[]
        invariant |jobs| == k && forall m :: 0 <= m < k ==> jobs[m] == Job(ids[m], rows[m], Spawned)
      {
        jobs := jobs + [Job(ids[k], rows[k], Spawned)];
      }
    }

    method MoveInv(j: nat, w: World) returns (moved: bool, ghost l: Label)
      requires Inv(c, Sys()) && pc == Delivering && j < |jobs|
      modifies this`jobs, this`sems, this`hist, store`emails, store`pending
      ensures Inv(c, Sys())
      ensures moved <==> !Blocked(c, old(sems), old(jobs)[j])
      ensures l == MoveLabel(j, old(jobs)[j].phase, w)
      ensures moved <==> Enabled(c, old(Sys()), l)
      ensures Sys() == if moved then Apply(c, old(Sys()), l) else old(Sys())
      ensures if moved then Work(jobs) < Work(old(jobs)) else jobs == old(jobs)
    {
      ghost var s := Sys();
      moved, l := Move(j, w);
      if moved {
        StepInv(c, s, l);
        WorkStep(c, s, l);
      }
    }

    /** The first goroutine that is not finished, or `|jobs|`. */
    method Unfinished() returns (j: nat)
      ensures j <= |jobs| && (j < |jobs| ==> jobs[j].phase != Finished)
      ensures j == |jobs| ==> forall k :: 0 <= k < |jobs| ==> jobs[k].phase == Finished
    {
      j := 0;
      while j < |jobs| && jobs[j].phase == Finished
        invariant j <= |jobs| && forall k :: 0 <= k < j ==> jobs[k].phase == Finished
      {
        j := j + 1;
      }
    }

    /** A goroutine that can run: one that holds a token, or else any unfinished one. */
    method Runnable(j: nat) returns (k: nat)
      requires Inv(c, Sys()) && pc == Delivering && j < |jobs| && jobs[j].phase != Finished
      ensures k < |jobs| && !Blocked(c, sems, jobs[k])
    {
      hide RcptDomain, FourDigitYear, FmtTime, Holders;
      k := 0;
      while k < |jobs| && !HoldsToken(jobs[k].phase)
        invariant k <= |jobs| && forall m :: 0 <= m < k ==> !HoldsToken(jobs[m].phase)
      {
        k := k + 1;
      }
      if k == |jobs| {
        k := j;
        NoHolders(jobs, DomainOf(jobs[j]));
        assert Tokens(sems, DomainOf(jobs[j])) == Holders(jobs, DomainOf(jobs[j]));
      }
    }

    /** wg.Wait() returned: the goroutines and their channels are gone. */
    method EndTick()
      requires Inv(c, Sys()) && pc == Delivering && forall k :: 0 <= k < |jobs| ==> jobs[k].phase == Finished
      modifies this`pc, this`jobs, this`sems
      ensures Enabled(c, old(Sys()), TickEnd) && Sys() == Apply(c, old(Sys()), TickEnd)
      ensures Inv(c, Sys()) && pc == Idle && jobs == []
    {
      hide Inv;
      pc, jobs, sems := Idle, [], map[];
      StepInv(c, old(Sys()), TickEnd);
    }

    /** One scheduling decision during the delivery. */
    method Turns(w: World, turn: Turn) returns (moved: bool)
      requires Inv(c, Sys()) && pc == Delivering && (turn.Other? ==> ByOthers(turn.l))
      modifies this`jobs, this`sems, this`hist, store`emails, store`pending
      ensures Inv(c, Sys())
      ensures moved <==> Enabled(c, old(Sys()), TurnLabel(old(Sys()), w, turn))
      ensures Sys() == if moved then Apply(c, old(Sys()), TurnLabel(old(Sys()), w, turn)) else old(Sys())
      ensures if turn.Goroutine? && moved then Work(jobs) < Work(old(jobs)) else jobs == old(jobs)
    {
      hide Inv;
      moved := false;
      match turn {
        case Other(o) => moved := Others(o);
        case Goroutine(k) =>
          if k < |jobs| {
            ghost var l;
            moved, l := MoveInv(k, w);
          }
      }
    }

    /** A whole tick under an arbitrary schedule, with statements of other actors between any two
        steps. After the schedule is used up the goroutines run in any order until all are
        finished: the loop ends because the work left only shrinks, and it never gets stuck
        because some goroutine can always move. The tick is exactly the opening, the steps that
        the decisions `turns` lead to, and the end of the tick. */
    method Tick(at: Instant, w: World, between: seq<Turn>, schedule: seq<Turn>)
      returns (ghost ids: seq<nat>, ghost turns: seq<Turn>, ghost trace: seq<Label>)
      requires Inv(c, Sys()) && pc == Idle && FourDigitYear(Seconds(at) + 86_400)
      requires Statements(between) && IsSchedule(schedule)
      modifies this, store`emails, store`pending
      ensures Inv(c, Sys()) && pc == Idle && jobs == []
      ensures Runs(c, old(Sys()), trace) && Sys() == Exec(c, old(Sys()), trace)
      ensures Enabled(c, old(Sys()), TickStart(at, w.staleOk)) && Follows(turns, schedule)
      ensures var opening := Opening(c, old(Sys()), at, w, between, ids);
        && Runs(c, old(Sys()), opening)
        && trace == opening + if w.claim == Delivered
             then Attempted(c, Exec(c, old(Sys()), opening), w, turns) + [TickEnd] else []
      ensures |ids| <= (if c.batchSize == 0 then 10 else c.batchSize) && Distinct(ids)
      ensures ClaimsWhatIsDue(c, old(store.emails), ids, at, w.staleOk, between)
      ensures OthersStay(old(store.emails), store.emails, if w.claim == Refused then [] else ids, at, w.staleOk, between + schedule)
      ensures w.claim == RowsLost ==> ClaimedAreStuck(old(store.emails), store.emails, ids, at, between)
      ensures w.claim == Delivered ==>
        ClaimedEndAsAnswered(Exec(c, old(Sys()), Opening(c, old(Sys()), at, w, between, ids)).table, old(store.pending),
                             store.emails, store.pending, w, schedule, ids, at)
      ensures w.claim == Delivered ==>
        UndisturbedEndAsAnswered(old(store.emails), old(store.pending), store.emails, store.pending, w, between + schedule, ids, at)
    {
      hide Inv, FourDigitYear, Enabled, Apply, Attempted, Opening, ClaimedEndAsAnswered, UndisturbedEndAsAnswered, Claimable;
      hide OthersStay, ClaimsWhatIsDue;
      ghost var s0 := Sys();
      var spawned;
      spawned, ids, trace := StartTick(at, w, between);
      turns := [];
      if !spawned {
        StaySoFar(old(store.emails), store.emails, if w.claim == Refused then [] else ids, at, w.staleOk, between, schedule);
        return;
      }
      ghost var s1 := Sys();
      turns := RunGoroutines(w, schedule);
      ghost var steps := Attempted(c, s1, w, turns);
      AllFinished(c, Sys());
      TickAnswers(c, s1, w, turns, schedule, ids);
      TickSparesOthers(c, old(store.emails), s1, w, turns, schedule, between, ids, at);
      UndisturbedAnswers(old(store.emails), s1, Sys(), w, between, schedule, ids, at);
      EndTick();
      RunsSnoc(c, s1, steps, TickEnd);
      RunsConcat(c, s0, trace, steps + [TickEnd]);
      trace := trace + (steps + [TickEnd]);
    }

    /** Runs the goroutines by the schedule and then in any order, until all are finished. */
    method RunGoroutines(w: World, schedule: seq<Turn>) returns (ghost turns: seq<Turn>)
      requires Inv(c, Sys()) && pc == Delivering && IsSchedule(schedule)
      modifies this`jobs, this`sems, this`hist, store`emails, store`pending
      ensures Inv(c, Sys()) && Follows(turns, schedule)
      ensures forall k :: 0 <= k < |jobs| ==> jobs[k].phase == Finished
      ensures Sys() == Exec(c, old(Sys()), Attempted(c, old(Sys()), w, turns))
    {
      hide Inv, FourDigitYear, Enabled, Apply, Attempted;
      ghost var s1 := Sys();
      turns := [];
      NothingAttempted(c, s1, w);
      var n := 0;
      var j := Unfinished();
      while j < |jobs|
        invariant Inv(c, Sys()) && n <= |schedule| && 0 <= j <= |jobs|
        invariant j < |jobs| ==> jobs[j].phase != Finished
        invariant j == |jobs| ==> forall k :: 0 <= k < |jobs| ==> jobs[k].phase == Finished
        invariant n < |schedule| ==> turns == schedule[..n]
        invariant n == |schedule| ==> schedule <= turns && forall k :: n <= k < |turns| ==> turns[k].Goroutine?
        invariant Sys() == Exec(c, s1, Attempted(c, s1, w, turns))
        decreases |schedule| - n + Work(jobs)
      {
        var turn;
        if n < |schedule| {
          turn := schedule[n];
          n := n + 1;
          assert schedule[..n] == schedule[..n - 1] + [turn];
        } else {
          var k := Runnable(j);
          turn := Goroutine(k);
          CanMove(w, k);
        }
        var moved := Turns(w, turn);
        AttemptedSnoc(c, s1, w, turns, turn);
        turns := turns + [turn];
        j := Unfinished();
      }
    }

    lemma CanMove(w: World, k: nat)
      requires Inv(c, Sys()) && pc == Delivering && k < |jobs| && !Blocked(c, sems, jobs[k])
      ensures Enabled(c, Sys(), TurnLabel(Sys(), w, Goroutine(k)))
    {
      hide FmtTime, RcptDomain, FourDigitYear;
      HolderCounted(k);
    }
  }
}
