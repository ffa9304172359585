/** The failure-rate alert of one domain, tick by tick (internal/notify/notifier.go, RateTick).
    Rates are exact fractions. */
module RateAlerts {
  import opened Text

  datatype Config = Config(threshold: real, minVolume: nat)

  /** How the enqueue of a notification ends: sent, skipped because the system domain is not
      verified, or an error. */
  datatype Fate = Enqueued | Skipped | Error

  /** What one tick sees of one domain: the counts of the last hour (None if the lookup fails),
      whether the stored state could be read, and how the enqueue and the state write end. */
  datatype Observation = Observation(counts: Option<(nat, nat)>, readOk: bool, fate: Fate, writeOk: bool)

  function Rate(failed: nat, total: nat): real {
    if total == 0 then 0.0 else failed as real / total as real
  }

  predicate Elevated(c: Config, o: Observation) {
    o.counts.Some? && o.counts.value.1 >= c.minVolume && Rate(o.counts.value.0, o.counts.value.1) >= c.threshold
  }

  predicate Recovered(c: Config, o: Observation) {
    o.counts.Some? && Rate(o.counts.value.0, o.counts.value.1) < c.threshold
  }

  /** The state as the tick reads it; a failed read looks like "not fired". */
  function Read(state: string, o: Observation): string {
    if o.readOk then state else ""
  }

  /** The tick puts an alert for the domain into the queue. */
  predicate Alerts(c: Config, state: string, o: Observation) {
    Elevated(c, o) && Read(state, o) != "fired" && o.fate == Enqueued
  }

  /** The stored state after the tick. */
  function After(c: Config, state: string, o: Observation): string {
    if Alerts(c, state, o) then (if o.writeOk then "fired" else state)
    else if Recovered(c, o) && Read(state, o) == "fired" && o.writeOk then ""
    else state
  }

  /** The tick reports an error for the domain. */
  predicate Errs(c: Config, state: string, o: Observation) {
    || o.counts.None?
    || (Elevated(c, o) && Read(state, o) != "fired" && (o.fate == Error || (o.fate == Enqueued && !o.writeOk)))
    || (!Elevated(c, o) && Recovered(c, o) && Read(state, o) == "fired" && !o.writeOk)
  }

  /** The counts of the last hour reach the threshold: enough attempts, and at least that share of
      them failed. */
  ghost predicate TooManyFailures(c: Config, failed: nat, total: nat) {
    && total >= c.minVolume
    && if total == 0 then c.threshold <= 0.0 else failed as real >= c.threshold * total as real
  }

  /** A smaller share failed. */
  ghost predicate FewFailures(c: Config, failed: nat, total: nat) {
    if total == 0 then c.threshold > 0.0 else (failed as real) < c.threshold * total as real
  }

  lemma Share(failed: nat, total: nat, threshold: real)
    requires total > 0
    ensures Rate(failed, total) >= threshold <==> failed as real >= threshold * total as real
  {
    var (x, y) := (failed as real, total as real);
    assert x == Rate(failed, total) * y;
  }

  lemma ElevatedExactly(c: Config, o: Observation)
    ensures Elevated(c, o) <==> o.counts.Some? && TooManyFailures(c, o.counts.value.0, o.counts.value.1)
    ensures Recovered(c, o) <==> o.counts.Some? && FewFailures(c, o.counts.value.0, o.counts.value.1)
  {
    if o.counts.Some? && o.counts.value.1 > 0 {
      Share(o.counts.value.0, o.counts.value.1, c.threshold);
    }
  }

  /** A tick alerts if and only if the counts reach the threshold, no alert is remembered as far as
      the tick can read, and the email can be queued. */
  lemma AlertsExactly(c: Config, state: string, o: Observation)
    ensures Alerts(c, state, o) <==>
      && o.counts.Some? && TooManyFailures(c, o.counts.value.0, o.counts.value.1)
      && (state != "fired" || !o.readOk) && o.fate == Enqueued
  {
    ElevatedExactly(c, o);
  }

  /** What a tick remembers, whatever fails: a stored alert until the tick reads it and stores that the
      share is below the threshold, and a new alert if it can be queued and stored. */
  lemma RemembersExactly(c: Config, state: string, o: Observation)
    requires state == "" || state == "fired"
    ensures After(c, state, o) == "" || After(c, state, o) == "fired"
    ensures After(c, state, o) == "fired" <==>
      if !o.writeOk then state == "fired"
      else if state == "fired" then !(Recovered(c, o) && o.readOk) else Elevated(c, o) && o.fate == Enqueued
  {
  }

  /** The tick reports an error for a domain if and only if its counts could not be read, its alert
      could not be queued, or something it set out to store could not be stored. */
  lemma ErrsExactly(c: Config, state: string, o: Observation)
    ensures o.counts.None? ==> Errs(c, state, o)
    ensures o.counts.Some? && TooManyFailures(c, o.counts.value.0, o.counts.value.1) ==>
      (Errs(c, state, o) <==> (state != "fired" || !o.readOk) && (o.fate == Error || (o.fate == Enqueued && !o.writeOk)))
    ensures o.counts.Some? && FewFailures(c, o.counts.value.0, o.counts.value.1) ==>
      (Errs(c, state, o) <==> state == "fired" && o.readOk && !o.writeOk)
    ensures o.counts.Some? && !TooManyFailures(c, o.counts.value.0, o.counts.value.1) && !FewFailures(c, o.counts.value.0, o.counts.value.1)
      ==> !Errs(c, state, o)
  {
    ElevatedExactly(c, o);
  }

  /** The stored state before the k-th of a series of ticks. */
  function StateAt(c: Config, state: string, os: seq<Observation>, k: nat): string
    requires k <= |os|
  {
    if k == 0 then state else After(c, StateAt(c, state, os, k - 1), os[k - 1])
  }

  predicate AlertAt(c: Config, state: string, os: seq<Observation>, k: nat)
    requires k < |os|
  {
    Alerts(c, StateAt(c, state, os, k), os[k])
  }

  /** While no tick sees the rate below the threshold, a fired state stays fired. */
  lemma {:induction false} FiredStays(c: Config, state: string, os: seq<Observation>, i: nat, j: nat)
    requires i <= j <= |os| && StateAt(c, state, os, i) == "fired"
    requires forall k :: i <= k < j ==> !Recovered(c, os[k])
    ensures StateAt(c, state, os, j) == "fired"
    decreases j - i
  {
    if i < j {
      FiredStays(c, state, os, i, j - 1);
    }
  }

  /** Alerts alternate: between two alerts for a domain some tick saw its rate below the threshold,
      unless the state write of the first or the state read of the second failed. */
  lemma AlertsAlternate(c: Config, state: string, os: seq<Observation>, i: nat, j: nat)
    requires i < j < |os| && AlertAt(c, state, os, i) && AlertAt(c, state, os, j)
    requires os[i].writeOk && os[j].readOk
    ensures exists k :: i < k < j && Recovered(c, os[k])
  {
    if !exists k :: i < k < j && Recovered(c, os[k]) {
      assert StateAt(c, state, os, i + 1) == "fired";
      FiredStays(c, state, os, i + 1, j);
    }
  }

  // ---------------------------------------------------------------- which faults break alternation

  datatype Flags = Flags(readOk: bool, writeOk: bool)

  /** Observations with these faults; no more deliveries failed than were tried. */
  ghost predicate Has(os: seq<Observation>, flags: seq<Flags>) {
    && |os| == |flags|
    && (forall k :: 0 <= k < |os| ==> os[k].readOk == flags[k].readOk && os[k].writeOk == flags[k].writeOk)
    && (forall k :: 0 <= k < |os| && os[k].counts.Some? ==> os[k].counts.value.0 <= os[k].counts.value.1)
  }

  ghost predicate RecoveryBetween(c: Config, os: seq<Observation>, i: nat, j: nat) {
    exists k :: i < k < j && k < |os| && Recovered(c, os[k])
  }

  ghost predicate Alternate(c: Config, state: string, os: seq<Observation>) {
    forall i: nat, j: nat :: i < j < |os| && AlertAt(c, state, os, i) && AlertAt(c, state, os, j)
      ==> RecoveryBetween(c, os, i, j)
  }

  ghost predicate AlwaysAlternate(c: Config, flags: seq<Flags>) {
    forall state, os :: Has(os, flags) ==> Alternate(c, state, os)
  }

  /** Every write but the last and every read but the first succeeds. */
  ghost predicate Sound(flags: seq<Flags>) {
    forall k :: 0 <= k < |flags| ==> (k + 1 < |flags| ==> flags[k].writeOk) && (k > 0 ==> flags[k].readOk)
  }

  /** Two ticks in a row see an elevated rate, the others see nothing. */
  function TwoElevated(c: Config, flags: seq<Flags>, p: nat): seq<Observation> {
    var n := if c.minVolume == 0 then 1 else c.minVolume;
    seq(|flags|, k requires 0 <= k < |flags| =>
      Observation(if k == p || k == p + 1 then Some((n, n)) else None, flags[k].readOk, Enqueued, flags[k].writeOk))
  }

  lemma {:induction false} QuietBefore(c: Config, flags: seq<Flags>, p: nat, k: nat)
    requires k <= p <= |flags|
    ensures StateAt(c, "", TwoElevated(c, flags, p), k) == ""
  {
    if k > 0 {
      QuietBefore(c, flags, p, k - 1);
    }
  }

  lemma FullRate(n: nat)
    requires n > 0
    ensures Rate(n, n) == 1.0
  {
    var x := n as real;
    assert x / x == 1.0;
  }

  /** A lost write of the first, or a lost read of the second, alerts twice in a row. */
  lemma FaultAlertsTwice(c: Config, flags: seq<Flags>, p: nat)
    requires p + 1 < |flags| && c.threshold <= 1.0 && (!flags[p].writeOk || !flags[p + 1].readOk)
    ensures var os := TwoElevated(c, flags, p);
      && Has(os, flags) && AlertAt(c, "", os, p) && AlertAt(c, "", os, p + 1) && !RecoveryBetween(c, os, p, p + 1)
  {
    var os := TwoElevated(c, flags, p);
    FullRate(os[p].counts.value.1);
    assert Elevated(c, os[p]) && Elevated(c, os[p + 1]);
    hide Rate;
    QuietBefore(c, flags, p, p);
    assert StateAt(c, "", os, p + 1) == After(c, "", os[p]);
  }

  lemma RateAtMostOne(failed: nat, total: nat)
    requires failed <= total
    ensures Rate(failed, total) <= 1.0
  {
    if total > 0 {
      var (x, y) := (failed as real, total as real);
      assert x <= y && x / y <= 1.0;
    }
  }

  lemma NeverElevated(c: Config, o: Observation)
    requires c.threshold > 1.0 && (o.counts.Some? ==> o.counts.value.0 <= o.counts.value.1)
    ensures !Elevated(c, o)
  {
    if o.counts.Some? {
      RateAtMostOne(o.counts.value.0, o.counts.value.1);
    }
  }

  /** For every series of ticks with given faults: alerts are sure to alternate with recoveries if and
      only if every write but the last and every read but the first succeeds, or no rate can reach
      the threshold. */
  lemma AlternationExactly(c: Config, flags: seq<Flags>)
    ensures AlwaysAlternate(c, flags) <==> c.threshold > 1.0 || Sound(flags)
  {
    hide Elevated, Recovered;
    if c.threshold > 1.0 || Sound(flags) {
      forall state, os | Has(os, flags) ensures Alternate(c, state, os) {
        forall i: nat, j: nat | i < j < |os| && AlertAt(c, state, os, i) && AlertAt(c, state, os, j)
          ensures RecoveryBetween(c, os, i, j)
        {
          if c.threshold > 1.0 {
            NeverElevated(c, os[i]);
          }
          assert flags[i].writeOk && flags[j].readOk;
          AlertsAlternate(c, state, os, i, j);
        }
      }
    } else {
      var k :| 0 <= k < |flags| && !((k + 1 < |flags| ==> flags[k].writeOk) && (k > 0 ==> flags[k].readOk));
      var p := if k + 1 < |flags| && !flags[k].writeOk then k else k - 1;
      FaultAlertsTwice(c, flags, p);
      assert !Alternate(c, "", TwoElevated(c, flags, p));
    }
  }

  // ---------------------------------------------------------------- re-arming

  lemma {:induction false} StaysArmed(c: Config, state: string, os: seq<Observation>, i: nat, j: nat)
    requires i <= j <= |os| && StateAt(c, state, os, i) != "fired"
    requires forall k :: i <= k < j ==> !Elevated(c, os[k])
    ensures StateAt(c, state, os, j) != "fired"
    decreases j - i
  {
    if i < j {
      StaysArmed(c, state, os, i, j - 1);
    }
  }

  /** And then an incident is reported again: after a recovery that could be read and stored, the
      next tick with an elevated rate alerts, however many ticks lie in between. */
  lemma RearmedAlerts(c: Config, state: string, os: seq<Observation>, i: nat, j: nat)
    requires i < j < |os| && Recovered(c, os[i]) && os[i].readOk && os[i].writeOk
    requires Elevated(c, os[j]) && os[j].fate == Enqueued && forall k :: i < k < j ==> !Elevated(c, os[k])
    ensures AlertAt(c, state, os, j)
  {
    assert StateAt(c, state, os, i + 1) == After(c, StateAt(c, state, os, i), os[i]);
    StaysArmed(c, state, os, i + 1, j);
  }
}
