/** The failure digest (internal/notify/notifier.go, internal/store/notify.go): conservation of
    failures and spacing of digests over every interleaving of the digest tick's statements with
    failure reports, faults and crashes. */
module Digest {
  import opened Text
  import opened TimeText
  import opened TimeParse

  const HOUR := 3_600 * NANOS

  /** Where the digest tick stands. `list` is what ListPendingFailures returned. */
  datatype Pc =
    | Idle
    | Listed(now: Instant, list: set<nat>)
    | Due(now: Instant, list: set<nat>, read: bool)
    | Enqueued(now: Instant, list: set<nat>)
    | Cleared(now: Instant)

  /** A digest: its tick's time, the ids it lists, whether its tick read the stored time, and whether
      the tick stored its own. */
  datatype Sent = Sent(now: Instant, list: set<nat>, read: bool, stored: bool)

  /** `pending` is the table, `last` the stored digest_last_sent ("" if unset). The rest is history:
      insertions that took effect, ids in digests, ids deleted without a digest, ids whose digest
      will be repeated, the digests, and the number of reported failures of user emails. */
  datatype State = State(
    pending: set<nat>, last: string, pc: Pc,
    inserted: multiset<nat>, digested: multiset<nat>, dropped: multiset<nat>, repeated: multiset<nat>,
    digests: seq<Sent>, failures: nat)

  const INITIAL := State({}, "", Idle, multiset{}, multiset{}, multiset{}, multiset{}, [], 0)

  datatype Label =
    | Failure(id: nat, isSystem: bool)
    | List(now: Instant)
    | Cooldown(readOk: bool)
    | Enqueue(ok: bool)
    | Clear(ok: bool)
    | SetState(ok: bool)
    | Crash

  /** The hour since the last digest is not over; an unreadable or unset time does not wait. */
  predicate Cooling(last: string, now: Instant) {
    last != "" && now as int - ParseTime(last) as int < HOUR
  }

  predicate Enabled(s: State, l: Label) {
    match l
    case Failure(id, isSystem) => true
    case List(now) => s.pc.Idle? && FourDigitYear(Seconds(now))
    case Cooldown(readOk) => s.pc.Listed?
    case Enqueue(ok) => s.pc.Due?
    case Clear(ok) => s.pc.Enqueued?
    case SetState(ok) => s.pc.Cleared?
    case Crash => true
  }

  function Apply(s: State, l: Label): State
    requires Enabled(s, l)
  {
    match l
    case Failure(id, isSystem) =>
      if isSystem then s
      else if id in s.pending then s.(failures := s.failures + 1)
      else s.(pending := s.pending + {id}, inserted := s.inserted + multiset{id}, failures := s.failures + 1)
    case List(now) => if s.pending == {} then s else s.(pc := Listed(now, s.pending))
    case Cooldown(readOk) =>
      s.(pc := if Cooling(if readOk then s.last else "", s.pc.now) then Idle else Due(s.pc.now, s.pc.list, readOk))
    case Enqueue(ok) =>
      if ok then s.(pc := Enqueued(s.pc.now, s.pc.list), digested := s.digested + multiset(s.pc.list),
                    digests := s.digests + [Sent(s.pc.now, s.pc.list, s.pc.read, false)])
      else s.(pc := Idle)
    case Clear(ok) =>
      if ok then s.(pc := Cleared(s.pc.now), pending := {}, dropped := s.dropped + multiset(s.pending - s.pc.list))
      else s.(pc := Idle, repeated := s.repeated + multiset(s.pc.list))
    case SetState(ok) =>
      if ok then s.(pc := Idle, last := FmtTime(s.pc.now), digests := Stored(s.digests)) else s.(pc := Idle)
    case Crash => s.(pc := Idle, repeated := s.repeated + Open(s.pc))
  }

  /** The latest digest is marked as stored. */
  function Stored(digests: seq<Sent>): seq<Sent> {
    if digests == [] then [] else digests[|digests| - 1 := digests[|digests| - 1].(stored := true)]
  }

  /** Ids that are in a digest and still pending because the tick has not cleared them yet. */
  function Open(pc: Pc): multiset<nat> {
    if pc.Enqueued? then multiset(pc.list) else multiset{}
  }

  predicate Runs(s: State, ls: seq<Label>)
    decreases |ls|
  {
    ls == [] || (Enabled(s, ls[0]) && Runs(Apply(s, ls[0]), ls[1..]))
  }

  function Exec(s: State, ls: seq<Label>): State
    requires Runs(s, ls)
    decreases |ls|
  {
    if ls == [] then s else Exec(Apply(s, ls[0]), ls[1..])
  }

  // ---------------------------------------------------------------- conservation

  predicate Holding(pc: Pc) {
    pc.Listed? || pc.Due? || pc.Enqueued?
  }

  function One(id: nat, ids: set<nat>): nat {
    if id in ids then 1 else 0
  }

  ghost predicate Conserved(s: State) {
    && (forall id: nat :: s.inserted[id] + s.repeated[id] + Open(s.pc)[id]
                          == s.digested[id] + One(id, s.pending) + s.dropped[id])
    && (Holding(s.pc) ==> s.pc.list <= s.pending && s.pc.list != {})
    && |s.inserted| <= s.failures
    && |s.digests| <= |s.digested|
  }

  lemma FailureConserves(s: State, id: nat)
    requires Conserved(s) && id !in s.pending
    ensures Conserved(Apply(s, Failure(id, false)))
  {
    assert |s.inserted + multiset{id}| == |s.inserted| + 1;
  }

  lemma EnqueueConserves(s: State)
    requires Conserved(s) && s.pc.Due?
    ensures Conserved(Apply(s, Enqueue(true)))
  {
    assert |multiset(s.pc.list)| == |s.pc.list| && |s.pc.list| > 0;
    assert |s.digested + multiset(s.pc.list)| == |s.digested| + |multiset(s.pc.list)|;
  }

  lemma ClearConserves(s: State, ok: bool)
    requires Conserved(s) && s.pc.Enqueued?
    ensures Conserved(Apply(s, Clear(ok)))
  {
  }

  lemma CrashConserves(s: State)
    requires Conserved(s)
    ensures Conserved(Apply(s, Crash))
  {
  }

  lemma ConservedStep(s: State, l: Label)
    requires Conserved(s) && Enabled(s, l)
    ensures Conserved(Apply(s, l))
  {
    match l
    case Failure(id, isSystem) =>
      if !isSystem && id !in s.pending {
        FailureConserves(s, id);
      }
    case Enqueue(ok) =>
      if ok {
        EnqueueConserves(s);
      }
    case Clear(ok) => ClearConserves(s, ok);
    case Crash => CrashConserves(s);
    case _ => hide Cooling, FourDigitYear, FmtTime;
  }

  lemma {:induction false} ConservedRun(s: State, ls: seq<Label>)
    requires Conserved(s) && Runs(s, ls)
    ensures Conserved(Exec(s, ls))
    decreases |ls|
  {
    if ls != [] {
      ConservedStep(s, ls[0]);
      hide Enabled, Apply, Conserved;
      ConservedRun(Apply(s, ls[0]), ls[1..]);
    }
  }

  /** In every reachable state between ticks, each insertion of a pending failure is in a digest,
      still pending, or was dropped; an id is in more digests than that only by a crash or a failed
      clear after its digest. Digests are never more than the reported user failures and such
      repetitions together. */
  lemma DigestConservation(ls: seq<Label>)
    requires Runs(INITIAL, ls) && Exec(INITIAL, ls).pc == Idle
    ensures var s := Exec(INITIAL, ls);
      && s.inserted + s.repeated == s.digested + multiset(s.pending) + s.dropped
      && |s.digests| <= s.failures + |s.repeated|
  {
    assert Conserved(INITIAL);
    ConservedRun(INITIAL, ls);
    var s := Exec(INITIAL, ls);
    var (all, split) := (s.inserted + s.repeated, s.digested + multiset(s.pending) + s.dropped);
    forall id ensures all[id] == split[id] {
      assert s.inserted[id] + s.repeated[id] + Open(s.pc)[id] == s.digested[id] + One(id, s.pending) + s.dropped[id];
    }
    assert all == split;
    assert |all| == |s.inserted| + |s.repeated|;
    assert |split| == |s.digested| + |multiset(s.pending)| + |s.dropped|;
  }

  // ---------------------------------------------------------------- what is dropped and repeated, exactly

  /** The tick under way goes on to clear the table. */
  predicate Clears(s: State, ls: seq<Label>)
    requires Runs(s, ls)
    decreases |ls|
  {
    ls != [] && Holding(s.pc) && if ls[0].Clear? then ls[0].ok else Clears(Apply(s, ls[0]), ls[1..])
  }

  /** The insertions of `id` between the list of a tick and its successful clear. */
  function LateInsertions(s: State, ls: seq<Label>, id: nat): nat
    requires Runs(s, ls)
    decreases |ls|
  {
    if ls == [] then 0
    else
      var s' := Apply(s, ls[0]);
      (if ls[0] == Failure(id, false) && id !in s.pending && Holding(s.pc) && Clears(s', ls[1..]) then 1 else 0)
      + LateInsertions(s', ls[1..], id)
  }

  predicate ListIsPending(s: State) {
    Holding(s.pc) ==> s.pc.list <= s.pending
  }

  lemma ListStaysPending(s: State, l: Label)
    requires ListIsPending(s) && Enabled(s, l)
    ensures ListIsPending(Apply(s, l))
  {
    hide Cooling, FourDigitYear, FmtTime;
  }

  /** `id` is pending but missing from the list of the tick under way. */
  predicate Missed(s: State, id: nat) {
    Holding(s.pc) && id in s.pending && id !in s.pc.list
  }

  lemma DroppedStep(s: State, l: Label, id: nat)
    requires ListIsPending(s) && Enabled(s, l)
    ensures var s' := Apply(s, l);
      && s'.dropped[id] == s.dropped[id] + (if l == Clear(true) && Missed(s, id) then 1 else 0)
      && (Holding(s'.pc) && Missed(s', id) ==> Missed(s, id) || (l == Failure(id, false) && id !in s.pending && Holding(s.pc)))
      && (Missed(s, id) && Holding(s'.pc) ==> Missed(s', id))
      && (l == Failure(id, false) && id !in s.pending && Holding(s.pc) ==> Missed(s', id) && !Missed(s, id))
  {
    hide Cooling, FourDigitYear, FmtTime;
  }

  /** Per failure, over every run and with any faults: an id is dropped exactly once for each of its
      insertions between the list of a tick and that tick's successful clear. */
  lemma {:induction false} DroppedExactly(s: State, ls: seq<Label>, id: nat)
    requires ListIsPending(s) && Runs(s, ls)
    ensures Exec(s, ls).dropped[id] == s.dropped[id] + LateInsertions(s, ls, id)
      + (if Missed(s, id) && Clears(s, ls) then 1 else 0)
    decreases |ls|
  {
    if ls != [] {
      var (l, s', rest) := (ls[0], Apply(s, ls[0]), ls[1..]);
      DroppedStep(s, l, id);
      ListStaysPending(s, l);
      DroppedExactly(s', rest, id);
      assert l.Clear? ==> !Holding(s'.pc);
      hide Apply, Enabled, Missed;
      if Clears(s', rest) {
        assert Holding(s'.pc);
      }
      if Missed(s, id) {
        MissedIsHolding(s, id);
      }
    }
  }

  lemma MissedIsHolding(s: State, id: nat)
    requires Missed(s, id)
    ensures Holding(s.pc)
  {
  }

  /** The digest just enqueued stays pending: its tick fails to clear or is cut off. */
  predicate FailsToClear(s: State, ls: seq<Label>)
    requires Runs(s, ls)
    decreases |ls|
  {
    && ls != [] && s.pc.Enqueued?
    && (ls[0].Crash? || if ls[0].Clear? then !ls[0].ok else FailsToClear(Apply(s, ls[0]), ls[1..]))
  }

  /** The digests that list `id` and whose tick did not clear it. */
  function RepeatedDigests(s: State, ls: seq<Label>, id: nat): nat
    requires Runs(s, ls)
    decreases |ls|
  {
    if ls == [] then 0
    else
      var s' := Apply(s, ls[0]);
      (if ls[0] == Enqueue(true) && id in s.pc.list && FailsToClear(s', ls[1..]) then 1 else 0)
      + RepeatedDigests(s', ls[1..], id)
  }

  /** `id` is in the digest that the tick under way has enqueued. */
  predicate InOpenDigest(s: State, id: nat) {
    s.pc.Enqueued? && id in s.pc.list
  }

  lemma RepeatedStep(s: State, l: Label, id: nat)
    requires Enabled(s, l)
    ensures var s' := Apply(s, l);
      && s'.repeated[id] == s.repeated[id]
           + (if InOpenDigest(s, id) && (l.Crash? || l == Clear(false)) then 1 else 0)
      && InOpenDigest(s', id) == (if l == Enqueue(true) then id in s.pc.list else InOpenDigest(s, id) && !l.Crash? && !l.Clear?)
      && (s.pc.Enqueued? && !l.Crash? && !l.Clear? ==> s'.pc.Enqueued? && l != Enqueue(true))
      && (l.Crash? || l.Clear? ==> !s'.pc.Enqueued?)
  {
    hide Cooling, FourDigitYear, FmtTime;
  }

  /** Per failure: an id is repeated exactly once for each digest that lists it and whose tick failed
      to clear or was cut off before. */
  lemma {:induction false} RepeatedExactly(s: State, ls: seq<Label>, id: nat)
    requires Runs(s, ls)
    ensures Exec(s, ls).repeated[id] == s.repeated[id] + RepeatedDigests(s, ls, id)
      + (if InOpenDigest(s, id) && FailsToClear(s, ls) then 1 else 0)
    decreases |ls|
  {
    if ls != [] {
      var (l, s', rest) := (ls[0], Apply(s, ls[0]), ls[1..]);
      RepeatedStep(s, l, id);
      RepeatedExactly(s', rest, id);
      hide Apply, Enabled;
    }
  }

  /** Per failure, over every run between ticks: what was inserted or must be repeated is in a digest,
      still pending, or was inserted too late for the list of a tick that cleared it. */
  lemma FailureConservation(ls: seq<Label>, id: nat)
    requires Runs(INITIAL, ls) && Exec(INITIAL, ls).pc == Idle
    ensures var s := Exec(INITIAL, ls);
      s.inserted[id] + RepeatedDigests(INITIAL, ls, id)
      == s.digested[id] + One(id, s.pending) + LateInsertions(INITIAL, ls, id)
  {
    hide RepeatedDigests, LateInsertions;
    DigestConservation(ls);
    DroppedExactly(INITIAL, ls, id);
    RepeatedExactly(INITIAL, ls, id);
    var s := Exec(INITIAL, ls);
    assert (s.inserted + s.repeated)[id] == (s.digested + multiset(s.pending) + s.dropped)[id];
  }

  /** A failure that is never inserted between a tick's list and clear, and whose digests are all
      cleared, is in exactly one digest or still pending for each insertion, whatever happens to
      other failures and other ticks. */
  lemma ExactlyOneDigest(ls: seq<Label>, id: nat)
    requires Runs(INITIAL, ls) && Exec(INITIAL, ls).pc == Idle
    requires LateInsertions(INITIAL, ls, id) == 0 && RepeatedDigests(INITIAL, ls, id) == 0
    ensures var s := Exec(INITIAL, ls);
      s.inserted[id] == s.digested[id] + if id in s.pending then 1 else 0
  {
    FailureConservation(ls, id);
  }

  /** With atomic ticks, no failure between a list and its clear, nothing is late. */
  lemma {:induction false} AtomicTicksDropNothing(s: State, ls: seq<Label>, id: nat)
    requires Runs(s, ls) && NeverLate(s, ls, id)
    ensures LateInsertions(s, ls, id) == 0
    decreases |ls|
  {
    if ls != [] {
      hide Enabled, Apply, Clears;
      AtomicTicksDropNothing(Apply(s, ls[0]), ls[1..], id);
    }
  }

  predicate NeverLate(s: State, ls: seq<Label>, id: nat)
    requires Runs(s, ls)
    decreases |ls|
  {
    ls == [] || (!(ls[0] == Failure(id, false) && Holding(s.pc)) && NeverLate(Apply(s, ls[0]), ls[1..], id))
  }

  /** The permanent failures of user emails that the worker reported. */
  function UserFailures(ls: seq<Label>): nat {
    if ls == [] then 0 else (if ls[0].Failure? && !ls[0].isSystem then 1 else 0) + UserFailures(ls[1..])
  }

  lemma {:induction false} FailuresCounted(s: State, ls: seq<Label>)
    requires Runs(s, ls)
    ensures Exec(s, ls).failures == s.failures + UserFailures(ls)
    decreases |ls|
  {
    if ls != [] {
      assert Apply(s, ls[0]).failures == s.failures + UserFailures([ls[0]]) by {
        hide Cooling, FmtTime;
        assert [ls[0]][1..] == [];
      }
      hide Enabled, Apply;
      FailuresCounted(Apply(s, ls[0]), ls[1..]);
    }
  }

  /** Insertions into the pending table: failures of user emails that are not pending already. */
  function Insertions(s: State, ls: seq<Label>, id: nat): nat
    requires Runs(s, ls)
    decreases |ls|
  {
    if ls == [] then 0
    else (if ls[0] == Failure(id, false) && id !in s.pending then 1 else 0) + Insertions(Apply(s, ls[0]), ls[1..], id)
  }

  /** Digests that list the id. */
  function Listings(digests: seq<Sent>, id: nat): nat {
    if digests == [] then 0
    else Listings(digests[..|digests| - 1], id) + if id in digests[|digests| - 1].list then 1 else 0
  }

  lemma {:induction false} StoredKeepsListings(digests: seq<Sent>, id: nat)
    ensures Listings(Stored(digests), id) == Listings(digests, id)
  {
    if digests != [] {
      assert Stored(digests)[..|digests| - 1] == digests[..|digests| - 1];
    }
  }

  lemma HistoryStep(s: State, l: Label, id: nat)
    requires Enabled(s, l) && s.digested[id] == Listings(s.digests, id)
    ensures Apply(s, l).digested[id] == Listings(Apply(s, l).digests, id)
    ensures Apply(s, l).inserted[id] == s.inserted[id] + if l == Failure(id, false) && id !in s.pending then 1 else 0
  {
    hide Cooling, FmtTime, FourDigitYear;
    StoredKeepsListings(s.digests, id);
    if l == Enqueue(true) {
      assert Apply(s, l).digests[..|s.digests|] == s.digests;
    }
  }

  lemma {:induction false} HistoryCounts(s: State, ls: seq<Label>, id: nat)
    requires Runs(s, ls) && s.digested[id] == Listings(s.digests, id)
    ensures Exec(s, ls).digested[id] == Listings(Exec(s, ls).digests, id)
    ensures Exec(s, ls).inserted[id] == s.inserted[id] + Insertions(s, ls, id)
    decreases |ls|
  {
    if ls != [] {
      HistoryStep(s, ls[0], id);
      hide Enabled, Apply;
      HistoryCounts(Apply(s, ls[0]), ls[1..], id);
    }
  }

  /** The conservation in terms of the run and its digests alone: each insertion of an id is listed in a
      digest, still pending, or late; more listings than that are repeats. */
  lemma ListingsConserve(ls: seq<Label>, id: nat)
    requires Runs(INITIAL, ls) && Exec(INITIAL, ls).pc == Idle
    ensures var s := Exec(INITIAL, ls);
      Insertions(INITIAL, ls, id) + RepeatedDigests(INITIAL, ls, id)
      == Listings(s.digests, id) + (if id in s.pending then 1 else 0) + LateInsertions(INITIAL, ls, id)
  {
    hide RepeatedDigests, LateInsertions, Insertions;
    FailureConservation(ls, id);
    HistoryCounts(INITIAL, ls, id);
  }

  /** Digests never outnumber the reported user failures, unless a tick failed to clear. */
  lemma DigestsNeverOutnumber(ls: seq<Label>)
    requires Runs(INITIAL, ls) && Exec(INITIAL, ls).pc == Idle
    requires forall id: nat :: RepeatedDigests(INITIAL, ls, id) == 0
    ensures |Exec(INITIAL, ls).digests| <= UserFailures(ls)
  {
    FailuresCounted(INITIAL, ls);
    hide RepeatedDigests;
    DigestConservation(ls);
    forall id: nat ensures Exec(INITIAL, ls).repeated[id] == 0 {
      RepeatedExactly(INITIAL, ls, id);
      assert RepeatedDigests(INITIAL, ls, id) == 0;
    }
    assert Exec(INITIAL, ls).repeated == multiset{};
  }

  predicate Faultless(l: Label) {
    !l.Crash? && !(l.Clear? && !l.ok) && !(l.SetState? && !l.ok) && !(l.Cooldown? && !l.readOk)
  }

  lemma FirstStep(s: State, l: Label, s': State, rest: seq<Label>)
    requires Enabled(s, l) && Apply(s, l) == s' && Runs(s', rest)
    ensures Runs(s, [l] + rest) && Exec(s, [l] + rest) == Exec(s', rest)
  {
    hide Enabled, Apply;
    assert ([l] + rest)[1..] == rest;
  }

  /** The end of a digest tick in which the failure of email 1 arrives after the list. */
  lemma LateEnd(s: State) returns (ls: seq<Label>)
    requires s.pc == Due(0, {0}, true) && s.pending == {0} && s.digested == s.dropped == multiset{}
    ensures Runs(s, ls) && Exec(s, ls).pc == Idle
    ensures forall k :: 0 <= k < |ls| ==> Faultless(ls[k])
    ensures Exec(s, ls).dropped == multiset{1} && 1 !in Exec(s, ls).digested
  {
    hide FmtTime, Runs, Exec;
    var s4 := Apply(s, Enqueue(true));
    var s5 := Apply(s4, Failure(1, false));
    ls := LateClear(s5);
    FirstStep(s4, Failure(1, false), s5, ls);
    ls := [Failure(1, false)] + ls;
    FirstStep(s, Enqueue(true), s4, ls);
    ls := [Enqueue(true)] + ls;
  }

  lemma LateClear(s: State) returns (ls: seq<Label>)
    requires s.pc == Enqueued(0, {0}) && s.pending == {0, 1} && s.dropped == multiset{}
    ensures Runs(s, ls) && Exec(s, ls).pc == Idle
    ensures forall k :: 0 <= k < |ls| ==> Faultless(ls[k])
    ensures Exec(s, ls).dropped == multiset{1} && Exec(s, ls).digested == s.digested
  {
    hide FmtTime, Runs, Exec;
    var s6 := Apply(s, Clear(true));
    var s7 := Apply(s6, SetState(true));
    assert {0, 1} - {0} == {1};
    NoSteps(s7);
    FirstStep(s6, SetState(true), s7, []);
    ls := [SetState(true)] + [];
    FirstStep(s, Clear(true), s6, ls);
    ls := [Clear(true)] + ls;
  }

  /** A failure reported between the list and the clear is deleted without ever being in a digest. */
  lemma LateFailureIsDropped() returns (ls: seq<Label>)
    ensures Runs(INITIAL, ls) && Exec(INITIAL, ls).pc == Idle
    ensures forall k :: 0 <= k < |ls| ==> Faultless(ls[k])
    ensures Exec(INITIAL, ls).dropped == multiset{1} && 1 !in Exec(INITIAL, ls).digested
  {
    assert FourDigitYear(Seconds(0)) by {
      assert Calendar.DateOf(0).month == 0;
    }
    hide FmtTime, FourDigitYear, Runs, Exec;
    var s1 := Apply(INITIAL, Failure(0, false));
    var s2 := Apply(s1, List(0));
    var s3 := Apply(s2, Cooldown(true));
    ls := LateEnd(s3);
    FirstStep(s2, Cooldown(true), s3, ls);
    ls := [Cooldown(true)] + ls;
    FirstStep(s1, List(0), s2, ls);
    ls := [List(0)] + ls;
    FirstStep(INITIAL, Failure(0, false), s1, ls);
    ls := [Failure(0, false)] + ls;
  }

  lemma NoSteps(s: State)
    ensures Runs(s, []) && Exec(s, []) == s
  {
  }

  // ---------------------------------------------------------------- spacing

  /** The first instant at which the digest after one at `last` may go out. */
  function NextDue(last: Instant): Instant {
    Seconds(last) * NANOS + HOUR
  }

  /** Each digest whose tick read the time that the tick before had stored is due by it. */
  ghost predicate Spaced(digests: seq<Sent>) {
    forall k :: 0 < k < |digests| && digests[k - 1].stored && digests[k].read ==>
      digests[k].now >= NextDue(digests[k - 1].now)
  }

  /** What the stored time says about the last digest, step by step through the tick. */
  ghost predicate Timed(s: State) {
    && Spaced(s.digests)
    && (!s.pc.Idle? ==> FourDigitYear(Seconds(s.pc.now)))
    && (s.digests != [] && s.digests[|s.digests| - 1].stored ==>
          && s.last == FmtTime(s.digests[|s.digests| - 1].now)
          && FourDigitYear(Seconds(s.digests[|s.digests| - 1].now)))
    && (s.pc.Due? && s.pc.read ==> !Cooling(s.last, s.pc.now))
    && (s.pc.Enqueued? || s.pc.Cleared? ==> s.digests != [] && s.digests[|s.digests| - 1].now == s.pc.now)
  }

  /** The cooldown lets the next digest through from one hour after the second of the last one. */
  lemma CooldownExactly(last: Instant, now: Instant)
    requires FourDigitYear(Seconds(last))
    ensures !Cooling(FmtTime(last), now) <==> now >= NextDue(last)
    ensures NextDue(last) as int > last as int + HOUR - NANOS
  {
    hide FmtSeconds, FourDigitYear, ParseSeconds;
    TruncatesToSecond(last);
    FmtOrder(Seconds(last), Seconds(last));
  }

  lemma TimedStep(s: State, l: Label)
    requires Timed(s) && Enabled(s, l)
    ensures Timed(Apply(s, l))
  {
    hide Cooling, FmtTime, FourDigitYear, NextDue;
    match l
    case Enqueue(ok) =>
      if ok {
        EnqueueTimed(s);
      }
    case _ =>
  }

  lemma EnqueueTimed(s: State)
    requires Timed(s) && s.pc.Due?
    ensures Timed(Apply(s, Enqueue(true)))
  {
    hide Cooling, FmtTime, FourDigitYear, NextDue;
    if s.digests != [] && s.digests[|s.digests| - 1].stored && s.pc.read {
      CooldownExactly(s.digests[|s.digests| - 1].now, s.pc.now);
    }
  }

  lemma {:induction false} TimedRun(s: State, ls: seq<Label>)
    requires Timed(s) && Runs(s, ls)
    ensures Timed(Exec(s, ls))
    decreases |ls|
  {
    if ls != [] {
      TimedStep(s, ls[0]);
      hide Enabled, Apply, Timed;
      TimedRun(Apply(s, ls[0]), ls[1..]);
    }
  }

  /** Over every run, for any clock and with any faults elsewhere: a digest whose tick could read the
      time is more than one hour minus one second after the one before, if that one's tick stored
      its time. */
  lemma DigestSpacing(ls: seq<Label>, k: nat)
    requires Runs(INITIAL, ls) && 0 < k < |Exec(INITIAL, ls).digests|
    requires Exec(INITIAL, ls).digests[k - 1].stored && Exec(INITIAL, ls).digests[k].read
    ensures var d := Exec(INITIAL, ls).digests;
      d[k].now >= NextDue(d[k - 1].now) && d[k].now as int - d[k - 1].now as int > HOUR - NANOS
  {
    TimedRun(INITIAL, ls);
  }

  // ---------------------------------------------------------------- every gap that can occur

  ghost predicate Reaches(s: State, s': State) {
    exists ls :: Runs(s, ls) && Exec(s, ls) == s'
  }

  lemma Next(s: State, l: Label, s': State, goal: State)
    requires Enabled(s, l) && Apply(s, l) == s' && Reaches(s', goal)
    ensures Reaches(s, goal)
  {
    var ls :| Runs(s', ls) && Exec(s', ls) == goal;
    FirstStep(s, l, s', ls);
  }

  /** A tick that lists, may send, clears and stores or fails to store. */
  lemma WholeTick(s: State, t: Instant, id: nat, read: bool, stored: bool) returns (s': State)
    requires s.pc == Idle && s.pending == {} && FourDigitYear(Seconds(t)) && !Cooling(if read then s.last else "", t)
    ensures Reaches(s, s') && s'.pc == Idle && s'.pending == {}
    ensures s'.digests == s.digests + [Sent(t, {id}, read, stored)]
    ensures s'.last == if stored then FmtTime(t) else s.last
  {
    hide FmtTime, FourDigitYear, Cooling, Runs, Exec, Reaches;
    var s1 := Apply(s, Failure(id, false));
    var s2 := Apply(s1, List(t));
    var s3 := Apply(s2, Cooldown(read));
    var s4 := Apply(s3, Enqueue(true));
    var s5 := Apply(s4, Clear(true));
    s' := Apply(s5, SetState(stored));
    Already(s');
    Next(s5, SetState(stored), s', s');
    Next(s4, Clear(true), s5, s');
    Next(s3, Enqueue(true), s4, s');
    Next(s2, Cooldown(read), s3, s');
    Next(s1, List(t), s2, s');
    Next(s, Failure(id, false), s1, s');
  }

  lemma Already(s: State)
    ensures Reaches(s, s)
  {
    NoSteps(s);
  }

  lemma {:induction false} ReachesOn(s: State, ls: seq<Label>, s': State, goal: State)
    requires Runs(s, ls) && Exec(s, ls) == s' && Reaches(s', goal)
    ensures Reaches(s, goal)
    decreases |ls|
  {
    hide Enabled, Apply, Reaches;
    if ls != [] {
      ReachesOn(Apply(s, ls[0]), ls[1..], s', goal);
      Next(s, ls[0], Apply(s, ls[0]), goal);
    }
  }

  /** The digests at `first` and `second` can follow each other, the first tick having stored its time
      or not, the second having read it or not. */
  ghost predicate CanFollow(first: Instant, stored: bool, second: Instant, read: bool) {
    exists s :: Reaches(INITIAL, s) && |s.digests| == 2
      && s.digests[0].now == first && s.digests[0].stored == stored
      && s.digests[1].now == second && s.digests[1].read == read
  }

  /** Exactly which two digests can follow each other: all, if the time in between was not stored or
      not read; else those from one hour after the second of the first. */
  lemma FollowExactly(first: Instant, stored: bool, second: Instant, read: bool)
    requires FourDigitYear(Seconds(first)) && FourDigitYear(Seconds(second))
    ensures CanFollow(first, stored, second, read) <==> (stored && read ==> second >= NextDue(first))
  {
    hide FmtTime, FourDigitYear, NextDue, Runs, Exec;
    if CanFollow(first, stored, second, read) {
      var s :| Reaches(INITIAL, s) && |s.digests| == 2
        && s.digests[0].now == first && s.digests[0].stored == stored
        && s.digests[1].now == second && s.digests[1].read == read;
      var ls :| Runs(INITIAL, ls) && Exec(INITIAL, ls) == s;
      if stored && read {
        DigestSpacing(ls, 1);
      }
    }
    if stored && read ==> second >= NextDue(first) {
      assert Cooling("", first) == Cooling("", second) == false;
      var s1 := WholeTick(INITIAL, first, 0, true, stored);
      if stored && read {
        CooldownExactly(first, second);
      }
      hide Cooling;
      var s2 := WholeTick(s1, second, 1, read, true);
      var ls :| Runs(INITIAL, ls) && Exec(INITIAL, ls) == s1;
      ReachesOn(INITIAL, ls, s1, s2);
    }
  }

  /** "At most once per hour" holds after a digest if and only if its tick fell on a whole second. */
  lemma HourKeptExactly(last: Instant)
    requires FourDigitYear(Seconds(last))
    ensures (forall now: Instant :: !Cooling(FmtTime(last), now) ==> now as int - last as int >= 3_600 * NANOS)
       <==> last % NANOS == 0
  {
    hide Cooling, FmtTime, FourDigitYear;
    CooldownExactly(last, NextDue(last));
    forall now: Instant | !Cooling(FmtTime(last), now) ensures now >= NextDue(last) {
      CooldownExactly(last, now);
    }
  }

  /** Two digests less than an hour apart, with every time stored and read. */
  lemma GapCanBeUnderAnHour()
    ensures CanFollow(NANOS - 1, true, HOUR, true) && HOUR - (NANOS - 1) < HOUR
  {
    assert FourDigitYear(0) && FourDigitYear(3_600) by {
      assert Calendar.DateOf(0).month == 0;
    }
    assert Seconds(NANOS - 1) == 0 && Seconds(HOUR) == 3_600;
    FollowExactly(NANOS - 1, true, HOUR, true);
  }
}
