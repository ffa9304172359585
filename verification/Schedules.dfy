/** How a tick is scheduled (internal/delivery/worker.go): which goroutine runs next, what the outside
    world answers, and the steps of the protocol that this leads to. */
module Schedules {
  import opened Text
  import opened TimeText
  import opened Emails
  import opened Protocol

  /** One scheduling decision: let goroutine `j` run for one step, or let the API or the admin run
      one statement. */
  datatype Turn = Goroutine(j: nat) | Other(l: Label)

  /** What the outside world answers during a tick: whether the stale requeue succeeds, how the claim
      ends, and for each goroutine whether the domain loads, what the Send reports, whether the
      outcome write and the failure callback succeed, and the time or error text written. */
  datatype World = World(
    staleOk: bool, claim: ClaimFate,
    domainOk: nat -> bool, reply: nat -> Outcome, writeOk: nat -> bool, notifyOk: nat -> bool, text: nat -> string)

  predicate ByOthers(l: Label) {
    l.Enqueue? || l.Cancel? || l.Requeue?
  }

  /** A goroutine cannot run: it is finished, or it waits for a token of a full channel. */
  predicate Blocked(c: Config, sems: map<string, nat>, job: Job) {
    job.phase == Finished || (job.phase == Waiting && Tokens(sems, DomainOf(job)) >= Limit(c))
  }

  /** The next step of goroutine `j`, in the order of the goroutine's code: get the channel, take a
      token, load the domain and send, record the attempt, write the outcome, report a permanent
      failure, give the token back. */
  function MoveLabel(j: nat, phase: Phase, w: World): Label {
    match phase
    case Spawned => Go(j, GetSem)
    case Waiting => Go(j, Acquire)
    case Holding => Go(j, if w.domainOk(j) then SendStart else DomainFails)
    case InSend => Go(j, SendEnd(w.reply(j)))
    case Returned(_) => Go(j, Record)
    case Recorded(_) => Mark(j, w.writeOk(j), w.text(j))
    case Notifying => Go(j, Notify(w.notifyOk(j)))
    case Releasing => Go(j, Release)
    case Finished => Go(j, Release)
  }

  /** What a scheduling decision attempts. */
  function TurnLabel(s: State, w: World, turn: Turn): Label {
    match turn
    case Other(l) => l
    case Goroutine(j) => if j < |s.jobs| then MoveLabel(j, s.jobs[j].phase, w) else Go(j, Release)
  }

  /** The steps that a list of scheduling decisions leads to: a goroutine that cannot run and an
      insert whose key is taken are passed over. */
  ghost function Attempted(c: Config, s: State, w: World, turns: seq<Turn>): (ls: seq<Label>)
    ensures Runs(c, s, ls)
    decreases |turns|
  {
    if turns == [] then []
    else
      var l := TurnLabel(s, w, turns[0]);
      if Enabled(c, s, l) then
        var rest := Attempted(c, Apply(c, s, l), w, turns[1..]);
        assert ([l] + rest)[1..] == rest;
        [l] + rest
      else Attempted(c, s, w, turns[1..])
  }

  ghost predicate IsSchedule(turns: seq<Turn>) {
    forall k :: 0 <= k < |turns| ==> turns[k].Other? ==> ByOthers(turns[k].l)
  }

  ghost predicate Statements(turns: seq<Turn>) {
    forall k :: 0 <= k < |turns| ==> turns[k].Other? && ByOthers(turns[k].l)
  }

  /** The decisions are those of the schedule, as far as it goes, and then goroutines only. */
  ghost predicate Follows(turns: seq<Turn>, schedule: seq<Turn>) {
    turns <= schedule || (schedule <= turns && forall k :: |schedule| <= k < |turns| ==> turns[k].Goroutine?)
  }

  /** A tick up to its claim: the stale requeue, statements of others, the claim. */
  ghost function Opening(c: Config, s: State, at: Instant, w: World, between: seq<Turn>, ids: seq<nat>): seq<Label>
    requires Enabled(c, s, TickStart(at, w.staleOk))
  {
    [TickStart(at, w.staleOk)] + Attempted(c, Apply(c, s, TickStart(at, w.staleOk)), w, between) + [Claim(ids, w.claim)]
  }

  lemma {:induction false} AttemptedSnoc(c: Config, s: State, w: World, turns: seq<Turn>, t: Turn)
    ensures var s' := Exec(c, s, Attempted(c, s, w, turns));
      var l := TurnLabel(s', w, t);
      && Attempted(c, s, w, turns + [t]) == Attempted(c, s, w, turns) + (if Enabled(c, s', l) then [l] else [])
      && Exec(c, s, Attempted(c, s, w, turns + [t])) == if Enabled(c, s', l) then Apply(c, s', l) else s'
    decreases |turns|
  {
    hide Enabled, Apply, TurnLabel;
    if turns == [] {
      assert turns + [t] == [t] && [t][1..] == [];
    } else {
      assert (turns + [t])[1..] == turns[1..] + [t];
      var l := TurnLabel(s, w, turns[0]);
      AttemptedSnoc(c, if Enabled(c, s, l) then Apply(c, s, l) else s, w, turns[1..], t);
    }
  }

  lemma {:induction false} RunsConcat(c: Config, s: State, a: seq<Label>, b: seq<Label>)
    requires Runs(c, s, a) && Runs(c, Exec(c, s, a), b)
    ensures Runs(c, s, a + b) && Exec(c, s, a + b) == Exec(c, Exec(c, s, a), b)
    decreases |a|
  {
    hide Enabled, Apply;
    if a == [] {
      assert a + b == b;
    } else {
      assert (a + b)[0] == a[0] && (a + b)[1..] == a[1..] + b;
      RunsConcat(c, Apply(c, s, a[0]), a[1..], b);
    }
  }

  lemma {:induction false} RunsSnoc(c: Config, s: State, ls: seq<Label>, l: Label)
    requires Runs(c, s, ls) && Enabled(c, Exec(c, s, ls), l)
    ensures Runs(c, s, ls + [l]) && Exec(c, s, ls + [l]) == Apply(c, Exec(c, s, ls), l)
    decreases |ls|
  {
    hide Enabled, Apply;
    if ls == [] {
      assert ls + [l] == [l] && [l][1..] == [];
    } else {
      assert (ls + [l])[1..] == ls[1..] + [l];
      RunsSnoc(c, Apply(c, s, ls[0]), ls[1..], l);
    }
  }

  lemma NothingAttempted(c: Config, s: State, w: World)
    ensures Attempted(c, s, w, []) == [] && Exec(c, s, []) == s
  {
  }
}
