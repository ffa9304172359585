/** The database object (internal/store): its tables, and one method per statement or query. */
module Stores {
  import opened Text
  import opened Emails
  import opened AdminActions

  class Store {
    var emails: Table
    /** notify_pending_failures */
    var pending: set<nat>
    /** notify_state; an absent key reads as the empty text */
    var state: map<string, string>

    constructor ()
      ensures emails == [] && pending == {} && state == map[]
    {
      emails, pending, state := [], {}, map[];
    }

    // -------------------------------------------------------------- queue statements

    /** The row of this key, if there is one; no id or an empty key is NULL and matches nothing. */
    method FindByIdempotencyKey(apiKeyId: nat, key: string) returns (found: Option<nat>)
      ensures found.Some? ==>
        && apiKeyId != 0 && key != "" && found.value < |emails|
        && emails[found.value].apiKeyId == apiKeyId && emails[found.value].idempotencyKey == key
      ensures found.None? && apiKeyId != 0 && key != "" ==>
        forall e :: e in emails ==> e.apiKeyId != apiKeyId || e.idempotencyKey != key
      ensures found.Some? ==> HasKey(emails[found.value], apiKeyId, key)
      ensures found.None? <==> !KeyTaken(emails, apiKeyId, key)
    {
      for i := 0 to |emails|
        invariant forall k :: 0 <= k < i ==> !HasKey(emails[k], apiKeyId, key)
      {
        if HasKey(emails[i], apiKeyId, key) {
          return Some(i);
        }
      }
      found := None;
    }

    /** Inserts a queued row, or fails on the unique index and leaves the table as it was. */
    method EnqueueEmail(e: Email, now: string) returns (id: Option<nat>)
      modifies this`emails
      ensures KeyTaken(old(emails), e.apiKeyId, e.idempotencyKey) ==> id == None && emails == old(emails)
      ensures !KeyTaken(old(emails), e.apiKeyId, e.idempotencyKey) ==>
        && id == Some(|old(emails)|) && emails == old(emails) + [NewRow(e, now)]
        && var row := emails[|old(emails)|];
        && row.status == Queued && row.attempts == 0 && row.originalTo == "" && row.lastError == "" && row.sentAt == ""
        && (e.nextAttemptAt == "" ==> row.nextAttemptAt == now) && (e.nextAttemptAt != "" ==> row.nextAttemptAt == e.nextAttemptAt)
        && (e.createdAt == "" ==> row.createdAt == now) && (e.createdAt != "" ==> row.createdAt == e.createdAt)
        && row.headersJson == (if e.headersJson == "" then "{}" else e.headersJson)
        && SameMail(e, row.(originalTo := e.originalTo, headersJson := e.headersJson, createdAt := e.createdAt))
    {
      var clash := FindByIdempotencyKey(e.apiKeyId, e.idempotencyKey);
      if clash.Some? {
        return None;
      }
      id := Some(|emails|);
      emails := emails + [NewRow(e, now)];
    }

    /** Moves the earliest due rows to `sending`, stamped with the claim time, and returns them. */
    method ClaimDue(limit: nat, now: string) returns (ids: seq<nat>, out: seq<Email>)
      modifies this`emails
      ensures IsClaim(old(emails), ids, limit, now)
      ensures emails == Claimed(old(emails), ids, now)
      ensures |out| == |ids| && forall k :: 0 <= k < |ids| ==> ids[k] < |emails| && out[k] == emails[ids[k]]
      ensures |emails| == |old(emails)| && forall i :: 0 <= i < |emails| && i !in ids ==> emails[i] == old(emails)[i]
      ensures forall i :: i in ids ==>
        && old(emails)[i].status == Queued && Leq(old(emails)[i].nextAttemptAt, now)
        && emails[i] == old(emails)[i].(status := Sending, nextAttemptAt := now)
      ensures |ids| <= limit
      ensures forall i :: 0 <= i < |emails| && i !in ids && old(emails)[i].status == Queued && Leq(old(emails)[i].nextAttemptAt, now) ==>
        |ids| == limit && forall k :: k in ids ==> Leq(old(emails)[k].nextAttemptAt, old(emails)[i].nextAttemptAt)
    {
      ids := SelectDue(limit, now);
      ClaimSays(emails, ids, limit, now);
      emails := Claimed(emails, ids, now);
      out := [];
      for k := 0 to |ids|
        invariant |out| == k && forall m :: 0 <= m < k ==> ids[m] < |emails| && out[m] == emails[ids[m]]
      {
        assert ids[k] in ids;
        out := out + [emails[ids[k]]];
      }
    }

    /** `SELECT id … WHERE status='queued' AND next_attempt_at<=? ORDER BY next_attempt_at LIMIT ?` */
    method SelectDue(limit: nat, now: string) returns (ids: seq<nat>)
      ensures IsClaim(emails, ids, limit, now)
    {
      var left := DueIds(emails, now);
      ghost var due := left;
      ids := [];
      while |ids| < limit && left != {}
        invariant left <= due == DueIds(emails, now) && Elems(ids) == due - left && Distinct(ids)
        invariant |ids| <= limit && |ids| + |left| == |due|
        invariant forall i, j :: i in due - left && j in left ==> Leq(emails[i].nextAttemptAt, emails[j].nextAttemptAt)
        decreases left
      {
        var m := PickEarliest(left);
        assert m !in Elems(ids);
        assert Elems(ids + [m]) == Elems(ids) + {m};
        ids, left := ids + [m], left - {m};
      }
      assert forall i :: i in ids <==> i in Elems(ids);
    }

    method PickEarliest(s: set<nat>) returns (m: nat)
      requires s != {} && forall i :: i in s ==> i < |emails|
      ensures m in s && forall j :: j in s ==> Leq(emails[m].nextAttemptAt, emails[j].nextAttemptAt)
    {
      m :| m in s;
      var rest := s - {m};
      LessIrreflexive(emails[m].nextAttemptAt);
      while rest != {}
        invariant rest <= s && m in s
        invariant forall j :: j in s - rest ==> Leq(emails[m].nextAttemptAt, emails[j].nextAttemptAt)
        decreases rest
      {
        var x :| x in rest;
        LessTotal(emails[m].nextAttemptAt, emails[x].nextAttemptAt);
        if Less(emails[x].nextAttemptAt, emails[m].nextAttemptAt) {
          LessIrreflexive(emails[x].nextAttemptAt);
          forall j | j in s - rest ensures Leq(emails[x].nextAttemptAt, emails[j].nextAttemptAt) {
            LeqTransitive(emails[x].nextAttemptAt, emails[m].nextAttemptAt, emails[j].nextAttemptAt);
          }
          m := x;
        }
        rest := rest - {x};
      }
    }

    /** Puts rows stuck in `sending` since `olderThan` back on the queue, and counts them. */
    method RequeueStaleSending(olderThan: string) returns (n: nat)
      modifies this`emails
      ensures emails == StaleReleased(old(emails), olderThan)
      ensures |emails| == |old(emails)| && forall i :: 0 <= i < |emails| ==>
        emails[i] == if old(emails)[i].status == Sending && Leq(old(emails)[i].nextAttemptAt, olderThan)
                     then old(emails)[i].(status := Queued) else old(emails)[i]
      ensures n == |StaleIds(old(emails), olderThan)|
    {
      hide Stale, Released;
      n := 0;
      ghost var was := emails;
      ghost var hits: set<nat> := {};
      for i := 0 to |emails|
        invariant |emails| == |was|
        invariant forall k :: 0 <= k < i ==> emails[k] == Released(was[k], olderThan)
        invariant forall k :: i <= k < |emails| ==> emails[k] == was[k]
        invariant n == |hits| && forall k: nat :: k in hits <==> k < i && Stale(was[k], olderThan)
      {
        ReleasedRow(was[i], olderThan);
        if Stale(emails[i], olderThan) {
          emails := emails[i := emails[i].(status := Queued)];
          hits := hits + {i};
          n := n + 1;
        }
      }
      assert emails == StaleReleased(was, olderThan);
      ReleaseSays(was, olderThan);
      assert hits == StaleIds(was, olderThan);
    }

    /** The three outcome writes are guarded by the id alone: whatever the status was, one attempt is
        counted, the named columns are set, and every other column and row stays. */
    method MarkSent(id: nat, at: string)
      modifies this`emails
      ensures OnlyRow(old(emails), emails, id)
      ensures id < |emails| ==>
        && emails[id].status == Sent && emails[id].attempts == old(emails)[id].attempts + 1
        && emails[id].sentAt == at && emails[id].lastError == ""
        && emails[id].nextAttemptAt == old(emails)[id].nextAttemptAt && SameMail(old(emails)[id], emails[id])
      ensures emails == if id < |old(emails)| then old(emails)[id := SentRow(old(emails)[id], at)] else old(emails)
    {
      if id < |emails| {
        emails := emails[id := SentRow(emails[id], at)];
      }
    }

    method MarkRetry(id: nat, nextAt: string, error: string)
      modifies this`emails
      ensures OnlyRow(old(emails), emails, id)
      ensures id < |emails| ==>
        && emails[id].status == Queued && emails[id].attempts == old(emails)[id].attempts + 1
        && emails[id].nextAttemptAt == nextAt && emails[id].lastError == error
        && emails[id].sentAt == old(emails)[id].sentAt && SameMail(old(emails)[id], emails[id])
      ensures emails == if id < |old(emails)| then old(emails)[id := RetryRow(old(emails)[id], nextAt, error)] else old(emails)
    {
      if id < |emails| {
        emails := emails[id := RetryRow(emails[id], nextAt, error)];
      }
    }

    method MarkFailed(id: nat, error: string)
      modifies this`emails
      ensures OnlyRow(old(emails), emails, id)
      ensures id < |emails| ==>
        && emails[id].status == Failed && emails[id].attempts == old(emails)[id].attempts + 1
        && emails[id].lastError == error && emails[id].nextAttemptAt == old(emails)[id].nextAttemptAt
        && emails[id].sentAt == old(emails)[id].sentAt && SameMail(old(emails)[id], emails[id])
      ensures emails == if id < |old(emails)| then old(emails)[id := FailedRow(old(emails)[id], error)] else old(emails)
    {
      if id < |emails| {
        emails := emails[id := FailedRow(emails[id], error)];
      }
    }

    /** Stops a queued email; `ok` is false exactly if the guard matched no row, and then nothing
        changed. */
    method CancelEmail(id: nat) returns (ok: bool)
      modifies this`emails
      ensures ok <==> id < |old(emails)| && old(emails)[id].status == Queued
      ensures emails == Cancelled(old(emails), id)
      ensures ok ==> emails == old(emails)[id := old(emails)[id].(status := Canceled)]
      ensures ok <==> emails != old(emails)
    {
      ok := id < |emails| && Cancelable(emails[id].status);
      if ok {
        emails := emails[id := emails[id].(status := Canceled)];
      }
    }

    /** Puts an email that is not in flight and not sent back on the queue with a fresh schedule. */
    method RequeueEmail(id: nat, newTo: string, newToName: string, now: string) returns (ok: bool)
      modifies this`emails
      ensures ok <==> id < |old(emails)| && old(emails)[id].status !in {Sending, Sent}
      ensures emails == Requeued(old(emails), id, newTo, newToName, now)
      ensures !ok ==> emails == old(emails)
      ensures OnlyRow(old(emails), emails, id)
      ensures ok ==>
        && var (was, row) := (old(emails)[id], emails[id]);
        && row.status == Queued && row.attempts == 0 && row.nextAttemptAt == now && row.lastError == "" && SameContent(was, row)
        && (newTo == "" ==> row.to == was.to && row.toName == was.toName && row.originalTo == was.originalTo)
        && (newTo != "" ==>
              && row.to == newTo && row.toName == newToName
              && row.originalTo == if was.originalTo == "" && was.to != newTo then was.to else was.originalTo)
    {
      ok := id < |emails| && Requeueable(emails[id].status);
      if ok {
        var e := emails[id];
        if newTo != "" {
          e := e.(originalTo := if e.originalTo == "" && e.to != newTo then e.to else e.originalTo,
                  to := newTo, toName := newToName);
        }
        emails := emails[id := e.(status := Queued, attempts := 0, nextAttemptAt := now, lastError := "")];
      }
    }

    // -------------------------------------------------------------- admin handlers

    /** internal/admin/admin.go, cancelEmail up to its write: reads the row and refuses by its
        status. */
    method BeginCancel(id: nat) returns (d: Decision)
      ensures d == DecideCancel(emails, id)
    {
      if id >= |emails| {
        return Refuse(NotFound);
      }
      if !Cancelable(emails[id].status) {
        return Refuse(StatusForbids);
      }
      d := Write("", "");
    }

    /** The rest of cancelEmail, on the table as it is by now. */
    method EndCancel(id: nat, d: Decision) returns (r: ActionResult)
      modifies this`emails
      ensures Ended(r, emails) == FinishCancel(old(emails), id, d)
    {
      if d.Refuse? {
        return d.r;
      }
      var ok := CancelEmail(id);
      r := if ok then Done else StatusForbids;
    }

    /** retryEmail up to its write, with the recipient form value already parsed. */
    method BeginRetry(id: nat, submitted: Option<Recipient>) returns (d: Decision)
      ensures d == DecideRetry(emails, id, submitted)
    {
      if id >= |emails| {
        return Refuse(NotFound);
      }
      var e := emails[id];
      if !Requeueable(e.status) {
        return Refuse(StatusForbids);
      }
      var newTo, newToName := "", "";
      if submitted.Some? && (submitted.value.to != e.to || submitted.value.name != e.toName) {
        newTo, newToName := submitted.value.to, submitted.value.name;
      }
      d := Write(newTo, newToName);
    }

    /** The rest of retryEmail, on the table as it is by now. */
    method EndRetry(id: nat, d: Decision, now: string) returns (r: ActionResult)
      modifies this`emails
      ensures Ended(r, emails) == FinishRetry(old(emails), id, d, now)
    {
      if d.Refuse? {
        return d.r;
      }
      var ok := RequeueEmail(id, d.newTo, d.newToName, now);
      r := if ok then Done else StatusForbids;
    }

    /** cancelEmail with nothing in between. */
    method HandleCancel(id: nat) returns (r: ActionResult)
      modifies this`emails
      ensures r == if id >= |old(emails)| then NotFound else if old(emails)[id].status == Queued then Done else StatusForbids
      ensures emails == Cancelled(old(emails), id)
      ensures r != Done ==> emails == old(emails)
    {
      var d := BeginCancel(id);
      r := EndCancel(id, d);
    }

    /** retryEmail with nothing in between: the address after a retry is the submitted one, and the
        first address survives in original_to once it is replaced. */
    method HandleRetry(id: nat, submitted: Option<Recipient>, now: string) returns (r: ActionResult)
      modifies this`emails
      ensures r == if id >= |old(emails)| then NotFound
                   else if old(emails)[id].status in {Sending, Sent} then StatusForbids else Done
      ensures r != Done ==> emails == old(emails)
      ensures r == Done ==>
        && |emails| == |old(emails)| && (forall k :: 0 <= k < |emails| && k != id ==> emails[k] == old(emails)[k])
        && emails[id].status == Queued && emails[id].attempts == 0 && emails[id].nextAttemptAt == now
      ensures r == Done && submitted.Some? && submitted.value.to != "" ==>
        && RecipientOf(emails[id]) == submitted.value
        && emails[id].originalTo == (if old(emails)[id].originalTo == "" && old(emails)[id].to != submitted.value.to
                                     then old(emails)[id].to else old(emails)[id].originalTo)
      ensures r == Done && submitted.None? ==>
        && RecipientOf(emails[id]) == RecipientOf(old(emails)[id]) && emails[id].originalTo == old(emails)[id].originalTo
      ensures r == Done ==> SameContent(old(emails)[id], emails[id])
    {
      var d := BeginRetry(id, submitted);
      r := EndRetry(id, d, now);
    }

    // -------------------------------------------------------------- notifier state

    method GetState(key: string) returns (value: string)
      ensures value == StateOf(state, key)
    {
      value := if key in state then state[key] else "";
    }

    method SetState(key: string, value: string)
      modifies this`state
      ensures state == old(state)[key := value]
    {
      state := state[key := value];
    }

    /** INSERT OR IGNORE */
    method AddPendingFailure(id: nat)
      modifies this`pending
      ensures pending == old(pending) + {id}
    {
      pending := pending + {id};
    }

    /** The pending emails in the order of their ids. */
    method ListPendingFailures() returns (ids: seq<nat>)
      ensures forall i :: i in ids <==> i in pending && i < |emails|
      ensures forall i, j :: 0 <= i < j < |ids| ==> ids[i] < ids[j]
    {
      ids := [];
      for i := 0 to |emails|
        invariant forall k :: k in ids <==> k in pending && k < i
        invariant forall k :: 0 <= k < |ids| ==> ids[k] < i
        invariant forall k, m :: 0 <= k < m < |ids| ==> ids[k] < ids[m]
      {
        if i in pending {
          ids := ids + [i];
        }
      }
    }

    method ClearPendingFailures()
      modifies this`pending
      ensures pending == {}
    {
      pending := {};
    }
  }

  /** What a claim says about each row, in its own columns. */
  lemma ClaimSays(t: Table, ids: seq<nat>, limit: nat, now: string)
    requires IsClaim(t, ids, limit, now)
    ensures |ids| <= limit && forall i :: i in ids ==> i < |t| && t[i].status == Queued && Leq(t[i].nextAttemptAt, now)
    ensures forall i :: 0 <= i < |t| ==>
      Claimed(t, ids, now)[i] == if i in ids then t[i].(status := Sending, nextAttemptAt := now) else t[i]
    ensures forall i :: 0 <= i < |t| && i !in ids && t[i].status == Queued && Leq(t[i].nextAttemptAt, now) ==>
      |ids| == limit && forall k :: k in ids ==> Leq(t[k].nextAttemptAt, t[i].nextAttemptAt)
  {
    hide Leq;
    var due := DueIds(t, now);
    DistinctSize(ids);
    forall i: nat | i < |t| && i !in ids && t[i].status == Queued && Leq(t[i].nextAttemptAt, now)
      ensures i in due && |ids| == limit
    {
      assert i in due;
      if |ids| == |due| {
        assert Elems(ids) <= due - {i};
        SubsetIsSmaller(Elems(ids), due - {i});
      }
    }
  }

  lemma SubsetIsSmaller(a: set<nat>, b: set<nat>)
    requires a <= b
    ensures |a| <= |b|
  {
    assert b == a + (b - a);
  }

  lemma ReleaseSays(t: Table, cutoff: string)
    ensures forall i :: 0 <= i < |t| ==>
      StaleReleased(t, cutoff)[i] == if t[i].status == Sending && Leq(t[i].nextAttemptAt, cutoff) then t[i].(status := Queued) else t[i]
  {
    hide Leq;
  }

  /** No row but this one changes. */
  ghost predicate OnlyRow(t: Table, t': Table, id: nat) {
    |t'| == |t| && forall k :: 0 <= k < |t| && k != id ==> t'[k] == t[k]
  }

  function StateOf(state: map<string, string>, key: string): string {
    if key in state then state[key] else ""
  }
}
