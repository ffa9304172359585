/** The `emails` table and its statements (internal/store/emails.go).

    The table only grows, so it is a sequence and a row's id is its position: SQLite gives the
    next row the id one above the largest, and the model counts ids from 0. Each function here is
    one SQL statement, and with a single connection each statement is one atomic step. */
module Emails {
  import opened Text

  datatype Status = Queued | Sending | Sent | Failed | Canceled

  datatype Email = Email(
    apiKeyId: nat, domainId: nat,
    from: string, to: string, fromName: string, toName: string,
    originalTo: string, replyTo: string, subject: string,
    bodyHtml: string, bodyText: string, headersJson: string,
    status: Status, attempts: nat,
    nextAttemptAt: string, lastError: string, idempotencyKey: string,
    isSystem: bool, createdAt: string, sentAt: string)

  type Table = seq<Email>

  // ---------------------------------------------------------------- insert

  /** The row an INSERT creates: the unlisted columns take their defaults. */
  function NewRow(e: Email, now: string): Email {
    e.(nextAttemptAt := if e.nextAttemptAt == "" then now else e.nextAttemptAt,
       createdAt := if e.createdAt == "" then now else e.createdAt,
       headersJson := if e.headersJson == "" then "{}" else e.headersJson,
       status := Queued, attempts := 0, originalTo := "", lastError := "", sentAt := "")
  }

  /** The row carries this key: id 0 and the empty key are stored as NULL and match nothing. */
  predicate HasKey(e: Email, apiKeyId: nat, key: string) {
    apiKeyId != 0 && key != "" && e.apiKeyId == apiKeyId && e.idempotencyKey == key
  }

  ghost predicate KeyTaken(t: Table, apiKeyId: nat, key: string) {
    exists i :: 0 <= i < |t| && HasKey(t[i], apiKeyId, key)
  }

  /** The unique index idx_emails_idem. */
  ghost predicate KeysUnique(t: Table) {
    forall i, j :: 0 <= i < j < |t| && HasKey(t[i], t[i].apiKeyId, t[i].idempotencyKey)
      ==> !HasKey(t[j], t[i].apiKeyId, t[i].idempotencyKey)
  }

  /** The columns that no statement of the worker touches: keys, addresses, content and creation. */
  predicate SameMail(e: Email, e': Email) {
    e'.(status := e.status, attempts := e.attempts, nextAttemptAt := e.nextAttemptAt, lastError := e.lastError, sentAt := e.sentAt) == e
  }

  /** The columns that no retry by the admin touches: keys, sender, content and history. */
  predicate SameContent(e: Email, e': Email) {
    SameMail(e, e'.(to := e.to, toName := e.toName, originalTo := e.originalTo)) && e'.sentAt == e.sentAt
  }

  // ---------------------------------------------------------------- claim

  predicate Due(e: Email, now: string) {
    e.status == Queued && Leq(e.nextAttemptAt, now)
  }

  function DueIds(t: Table, now: string): set<nat> {
    set i: nat | i < |t| && Due(t[i], now)
  }

  ghost predicate Distinct(ids: seq<nat>) {
    forall i, j :: 0 <= i < j < |ids| ==> ids[i] != ids[j]
  }

  /** `ids` are rows that `SELECT id … ORDER BY next_attempt_at LIMIT limit` may return; rows with
      equal times come in no fixed order. */
  ghost predicate IsClaim(t: Table, ids: seq<nat>, limit: nat, now: string) {
    && Distinct(ids)
    && (forall i :: i in ids ==> i in DueIds(t, now))
    && |ids| == (if limit < |DueIds(t, now)| then limit else |DueIds(t, now)|)
    && (forall i, j :: i in ids && j in DueIds(t, now) && j !in ids
          ==> Leq(t[i].nextAttemptAt, t[j].nextAttemptAt))
  }

  function ClaimedRow(e: Email, now: string): Email {
    e.(status := Sending, nextAttemptAt := now)
  }

  function Claimed(t: Table, ids: seq<nat>, now: string): Table {
    seq(|t|, i requires 0 <= i < |t| => if i in ids then ClaimedRow(t[i], now) else t[i])
  }

  // ---------------------------------------------------------------- updates

  predicate Stale(e: Email, cutoff: string) {
    e.status == Sending && Leq(e.nextAttemptAt, cutoff)
  }

  function Released(e: Email, cutoff: string): Email {
    if Stale(e, cutoff) then e.(status := Queued) else e
  }

  function StaleReleased(t: Table, cutoff: string): Table {
    seq(|t|, i requires 0 <= i < |t| => Released(t[i], cutoff))
  }

  lemma ReleasedRow(e: Email, cutoff: string)
    ensures Released(e, cutoff) == if Stale(e, cutoff) then e.(status := Queued) else e
  {
  }

  function StaleIds(t: Table, cutoff: string): set<nat> {
    set i: nat | i < |t| && Stale(t[i], cutoff)
  }

  function SentRow(e: Email, at: string): Email {
    e.(status := Sent, attempts := e.attempts + 1, sentAt := at, lastError := "")
  }

  function RetryRow(e: Email, nextAt: string, error: string): Email {
    e.(status := Queued, attempts := e.attempts + 1, nextAttemptAt := nextAt, lastError := error)
  }

  function FailedRow(e: Email, error: string): Email {
    e.(status := Failed, attempts := e.attempts + 1, lastError := error)
  }

  predicate Cancelable(status: Status) {
    status == Queued
  }

  function Cancelled(t: Table, id: nat): Table {
    if id < |t| && Cancelable(t[id].status) then t[id := t[id].(status := Canceled)] else t
  }

  /** requeueGuard */
  predicate Requeueable(status: Status) {
    status == Queued || status == Failed || status == Canceled
  }

  function RequeuedRow(e: Email, newTo: string, newToName: string, now: string): Email {
    var again := e.(status := Queued, attempts := 0, nextAttemptAt := now, lastError := "");
    if newTo == "" then again
    else again.(originalTo := if e.originalTo == "" && e.to != newTo then e.to else e.originalTo,
                to := newTo, toName := newToName)
  }

  function Requeued(t: Table, id: nat, newTo: string, newToName: string, now: string): Table {
    if id < |t| && Requeueable(t[id].status) then t[id := RequeuedRow(t[id], newTo, newToName, now)] else t
  }

  // ---------------------------------------------------------------- a claim always exists

  lemma {:induction false} EarliestOf(t: Table, s: set<nat>) returns (m: nat)
    requires s != {} && forall i :: i in s ==> i < |t|
    ensures m in s && forall j :: j in s ==> Leq(t[m].nextAttemptAt, t[j].nextAttemptAt)
  {
    var x :| x in s;
    LessIrreflexive(t[x].nextAttemptAt);
    if s == {x} {
      m := x;
    } else {
      var y := EarliestOf(t, s - {x});
      LessTotal(t[x].nextAttemptAt, t[y].nextAttemptAt);
      m := if Leq(t[x].nextAttemptAt, t[y].nextAttemptAt) then x else y;
      forall j | j in s ensures Leq(t[m].nextAttemptAt, t[j].nextAttemptAt) {
        if j != x && m == x {
          LeqTransitive(t[x].nextAttemptAt, t[y].nextAttemptAt, t[j].nextAttemptAt);
        }
      }
    }
  }

  function Elems(ids: seq<nat>): set<nat> {
    set i | i in ids
  }

  lemma {:induction false} DistinctSize(ids: seq<nat>)
    requires Distinct(ids)
    ensures |Elems(ids)| == |ids|
  {
    if ids != [] {
      var (last, rest) := (ids[|ids| - 1], ids[..|ids| - 1]);
      DistinctSize(rest);
      assert ids == rest + [last];
      assert Elems(ids) == Elems(rest) + {last};
      assert last !in rest;
    }
  }

  /** Greedy choice of the earliest rows: some claim can always be returned. */
  lemma {:induction false} ClaimExists(t: Table, limit: nat, now: string) returns (ids: seq<nat>)
    ensures IsClaim(t, ids, limit, now)
  {
    var due := DueIds(t, now);
    if limit == 0 {
      ids := [];
    } else {
      ids := ClaimExists(t, limit - 1, now);
      hide Leq;
      if limit <= |due| {
        ids := ExtendClaim(t, ids, limit - 1, now);
      }
    }
  }

  lemma ExtendClaim(t: Table, ids: seq<nat>, limit: nat, now: string) returns (more: seq<nat>)
    requires IsClaim(t, ids, limit, now) && limit < |DueIds(t, now)|
    ensures IsClaim(t, more, limit + 1, now)
  {
    hide Leq;
    var due := DueIds(t, now);
    DistinctSize(ids);
    assert Elems(ids) <= due;
    var left := due - Elems(ids);
    assert |left| == |due| - |ids| by {
      assert due == left + Elems(ids);
    }
    var m := EarliestOf(t, left);
    assert forall j :: j in due && j !in ids ==> j in left;
    more := ids + [m];
  }
}
