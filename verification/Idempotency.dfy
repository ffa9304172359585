/** Idempotent posting (internal/api/api.go): any number of requests with one API key and one
    non-empty Idempotency-Key, interleaved query by query with each other and with everything else
    that writes the table. */
module Idempotency {
  import opened Text
  import opened Emails
  import opened Stores
  import P = Protocol

  datatype Reply = Created(id: nat) | Replayed(id: nat) | ServerError

  // ---------------------------------------------------------------- the handler, run alone

  /** `enqueueOrReplay`: a failed insert of a row that exists by now is a replay, not an error. */
  method EnqueueOrReplay(st: Store, e: Email, now: string) returns (reply: Reply)
    modifies st`emails
    ensures KeyTaken(old(st.emails), e.apiKeyId, e.idempotencyKey) ==>
      && st.emails == old(st.emails) && reply.Replayed?
      && reply.id < |st.emails| && HasKey(st.emails[reply.id], e.apiKeyId, e.idempotencyKey)
    ensures !KeyTaken(old(st.emails), e.apiKeyId, e.idempotencyKey) ==>
      reply == Created(|old(st.emails)|) && st.emails == old(st.emails) + [NewRow(e, now)]
  {
    var id := st.EnqueueEmail(e, now);
    if id.Some? {
      return Created(id.value);
    }
    if e.idempotencyKey != "" {
      var existing := st.FindByIdempotencyKey(e.apiKeyId, e.idempotencyKey);
      if existing.Some? {
        return Replayed(existing.value);
      }
    }
    reply := ServerError;
  }

  /** The idempotency part of `postEmail`, a run of the machine below for a keyed post. Posting twice creates one row and gives one id. */
  method PostEmail(st: Store, e: Email, now: string) returns (reply: Reply, ghost ls: seq<Label>)
    modifies st`emails
    ensures !reply.ServerError?
    ensures reply.Created? <==> !KeyTaken(old(st.emails), e.apiKeyId, e.idempotencyKey)
    ensures st.emails == old(st.emails) + if reply.Created? then [NewRow(e, now)] else []
    ensures reply.Created? ==> reply.id == |old(st.emails)|
    ensures reply.Replayed? ==> e.apiKeyId != 0 && e.idempotencyKey != "" && reply.id < |old(st.emails)|
    ensures reply.id < |st.emails|
    ensures e.apiKeyId != 0 && e.idempotencyKey != "" ==> HasKey(st.emails[reply.id], e.apiKeyId, e.idempotencyKey)
    ensures e.apiKeyId != 0 && e.idempotencyKey != "" && AtMostOneRow(old(st.emails), e.apiKeyId, e.idempotencyKey) ==>
      && Runs(State(old(st.emails), [Lookup]), ls, e.apiKeyId, e.idempotencyKey)
      && Exec(State(old(st.emails), [Lookup]), ls, e.apiKeyId, e.idempotencyKey) == State(st.emails, [Answered(reply)])
  {
    ls := [Look(0, true)] + if KeyTaken(st.emails, e.apiKeyId, e.idempotencyKey) then [] else [Put(0, e, now, true)];
    AloneRun(st.emails, e, now);

    if e.idempotencyKey != "" {
      var existing := st.FindByIdempotencyKey(e.apiKeyId, e.idempotencyKey);
      if existing.Some? {
        return Replayed(existing.value), ls;
      }
    }
    reply := EnqueueOrReplay(st, e, now);
  }

  /** The statements of a request that runs alone. */
  lemma AloneRun(t: Table, e: Email, now: string)
    ensures var (key, idem) := (e.apiKeyId, e.idempotencyKey);
      e.apiKeyId != 0 && e.idempotencyKey != "" ==>
        var s := State(t, [Lookup]);
        if KeyTaken(t, key, idem)
        then Runs(s, [Look(0, true)], key, idem)
             && Exec(s, [Look(0, true)], key, idem) == State(t, [Answered(Replayed(RowOf(t, key, idem)))])
        else Runs(s, [Look(0, true), Put(0, e, now, true)], key, idem)
             && Exec(s, [Look(0, true), Put(0, e, now, true)], key, idem) == State(t + [NewRow(e, now)], [Answered(Created(|t|))])
  {
    assert [Look(0, true)][1..] == [] && [Put(0, e, now, true)][1..] == [];
    assert [Look(0, true), Put(0, e, now, true)][1..] == [Put(0, e, now, true)];
    var (key, idem, s) := (e.apiKeyId, e.idempotencyKey, State(t, [Lookup]));
    if key != 0 && idem != "" && !KeyTaken(t, key, idem) {
      var s1 := Apply(s, Look(0, true), key, idem);
      assert s1 == State(t, [Insert]);
      var s2 := Apply(s1, Put(0, e, now, true), key, idem);
      assert s2 == State(t + [NewRow(e, now)], [Answered(Created(|t|))]);
      assert Exec(s1, [Put(0, e, now, true)], key, idem) == Exec(s2, [], key, idem) == s2;
    }
  }

  // ---------------------------------------------------------------- many requests

  /** Where a request stands: before its lookup, before its insert, before its second lookup, or
      answered. */
  datatype Pc = Lookup | Insert | Relookup | Answered(reply: Reply)

  datatype State = State(table: Table, requests: seq<Pc>)

  /** `ok` is false where the database answers with an error of its own. */
  datatype Label =
    | Look(r: nat, ok: bool)
    | Put(r: nat, e: Email, at: string, ok: bool)
    | LookAgain(r: nat, ok: bool)
    | Elsewhere(t: Table)

  /** Other statements never delete a row or change its keys, and do not use this key. */
  ghost predicate KeepsKeys(t: Table, t': Table, key: nat, idem: string) {
    && |t| <= |t'|
    && (forall i :: 0 <= i < |t| ==> HasKey(t'[i], key, idem) == HasKey(t[i], key, idem))
    && (forall i :: |t| <= i < |t'| ==> !HasKey(t'[i], key, idem))
  }

  ghost function RowOf(t: Table, key: nat, idem: string): nat
    requires KeyTaken(t, key, idem)
    ensures RowOf(t, key, idem) < |t| && HasKey(t[RowOf(t, key, idem)], key, idem)
  {
    var i :| 0 <= i < |t| && HasKey(t[i], key, idem); i
  }

  ghost predicate Enabled(s: State, l: Label, key: nat, idem: string) {
    match l
    case Look(r, ok) => r < |s.requests| && s.requests[r] == Lookup
    case Put(r, e, at, ok) => r < |s.requests| && s.requests[r] == Insert && HasKey(e, key, idem)
    case LookAgain(r, ok) => r < |s.requests| && s.requests[r] == Relookup
    case Elsewhere(t) => KeepsKeys(s.table, t, key, idem)
  }

  ghost function Apply(s: State, l: Label, key: nat, idem: string): State
    requires Enabled(s, l, key, idem)
  {
    match l
    case Look(r, ok) =>
      s.(requests := s.requests[r :=
        if ok && KeyTaken(s.table, key, idem) then Answered(Replayed(RowOf(s.table, key, idem))) else Insert])
    case Put(r, e, at, ok) =>
      if !ok || KeyTaken(s.table, key, idem) then s.(requests := s.requests[r := Relookup])
      else s.(table := s.table + [NewRow(e, at)], requests := s.requests[r := Answered(Created(|s.table|))])
    case LookAgain(r, ok) =>
      s.(requests := s.requests[r := Answered(
        if ok && KeyTaken(s.table, key, idem) then Replayed(RowOf(s.table, key, idem)) else ServerError)])
    case Elsewhere(t) => s.(table := t)
  }

  ghost predicate Runs(s: State, ls: seq<Label>, key: nat, idem: string)
    decreases |ls|
  {
    ls == [] || (Enabled(s, ls[0], key, idem) && Runs(Apply(s, ls[0], key, idem), ls[1..], key, idem))
  }

  ghost function Exec(s: State, ls: seq<Label>, key: nat, idem: string): State
    requires Runs(s, ls, key, idem)
    decreases |ls|
  {
    if ls == [] then s else Exec(Apply(s, ls[0], key, idem), ls[1..], key, idem)
  }

  // ---------------------------------------------------------------- what every interleaving keeps

  predicate Succeeded(p: Pc) {
    p.Answered? && !p.reply.ServerError?
  }

  ghost predicate AtMostOneRow(t: Table, key: nat, idem: string) {
    forall i, j :: 0 <= i < j < |t| ==> !(HasKey(t[i], key, idem) && HasKey(t[j], key, idem))
  }

  ghost predicate Inv(s: State, key: nat, idem: string) {
    && AtMostOneRow(s.table, key, idem)
    && (forall r :: 0 <= r < |s.requests| && Succeeded(s.requests[r]) ==>
          s.requests[r].reply.id < |s.table| && HasKey(s.table[s.requests[r].reply.id], key, idem))
    && (forall q, r :: 0 <= q < r < |s.requests| ==>
          !(s.requests[q].Answered? && s.requests[q].reply.Created? && s.requests[r].Answered? && s.requests[r].reply.Created?))
  }

  lemma StepInv(s: State, l: Label, key: nat, idem: string)
    requires Inv(s, key, idem) && Enabled(s, l, key, idem)
    ensures Inv(Apply(s, l, key, idem), key, idem)
  {
  }

  lemma {:induction false} RunInv(s: State, ls: seq<Label>, key: nat, idem: string)
    requires Inv(s, key, idem) && Runs(s, ls, key, idem)
    ensures Inv(Exec(s, ls, key, idem), key, idem)
    decreases |ls|
  {
    if ls != [] {
      StepInv(s, ls[0], key, idem);
      hide Inv, Enabled, Apply;
      RunInv(Apply(s, ls[0], key, idem), ls[1..], key, idem);
    }
  }

  ghost predicate AllBegin(s: State) {
    forall r :: 0 <= r < |s.requests| ==> s.requests[r] == Lookup
  }

  /** In every interleaving at most one row of the key exists, at most one request is answered
      202, and all successful answers carry the same id. Faults of the database included. */
  lemma OneRowOneCreation(s: State, ls: seq<Label>, key: nat, idem: string, q: nat, r: nat)
    requires AllBegin(s) && AtMostOneRow(s.table, key, idem) && Runs(s, ls, key, idem)
    requires q < r < |Exec(s, ls, key, idem).requests|
    ensures var s' := Exec(s, ls, key, idem);
      && AtMostOneRow(s'.table, key, idem)
      && (Succeeded(s'.requests[q]) && Succeeded(s'.requests[r]) ==>
            && s'.requests[q].reply.id == s'.requests[r].reply.id
            && !(s'.requests[q].reply.Created? && s'.requests[r].reply.Created?))
  {
    RunInv(s, ls, key, idem);
    var s' := Exec(s, ls, key, idem);
    if Succeeded(s'.requests[q]) && Succeeded(s'.requests[r]) {
      var (a, b) := (s'.requests[q].reply.id, s'.requests[r].reply.id);
      assert HasKey(s'.table[a], key, idem) && HasKey(s'.table[b], key, idem);
    }
  }

  // ---------------------------------------------------------------- without database faults

  predicate Faultless(l: Label) {
    match l
    case Look(r, ok) => ok
    case Put(r, e, at, ok) => ok
    case LookAgain(r, ok) => ok
    case Elsewhere(t) => true
  }

  /** The row of the key, once there, was created by one of the requests; a request that is to look
      a second time, or has succeeded, knows the row exists; and nobody got an error. */
  ghost predicate Served(s: State, key: nat, idem: string, creator: bool) {
    && (creator && KeyTaken(s.table, key, idem) ==>
          exists r :: 0 <= r < |s.requests| && s.requests[r].Answered? && s.requests[r].reply.Created?)
    && (forall r :: 0 <= r < |s.requests| && (s.requests[r] == Relookup || s.requests[r].Answered?)
          ==> KeyTaken(s.table, key, idem))
    && (forall r :: 0 <= r < |s.requests| && s.requests[r].Answered? ==> !s.requests[r].reply.ServerError?)
  }

  lemma KeyStays(t: Table, t': Table, key: nat, idem: string)
    requires KeepsKeys(t, t', key, idem)
    ensures KeyTaken(t, key, idem) <==> KeyTaken(t', key, idem)
  {
    if KeyTaken(t, key, idem) {
      var i := RowOf(t, key, idem);
      assert HasKey(t'[i], key, idem);
    }
  }

  lemma ServedStep(s: State, l: Label, key: nat, idem: string, creator: bool)
    requires Served(s, key, idem, creator) && Enabled(s, l, key, idem) && Faultless(l)
    ensures Served(Apply(s, l, key, idem), key, idem, creator)
  {
    var s' := Apply(s, l, key, idem);
    match l
    case Elsewhere(t) => KeyStays(s.table, t, key, idem);
    case Put(r, e, at, ok) =>
      if !KeyTaken(s.table, key, idem) {
        assert HasKey(s'.table[|s.table|], key, idem) && s'.requests[r].reply.Created?;
      } else {
        KeepCreator(s, s', r);
      }
    case Look(r, ok) => KeepCreator(s, s', r);
    case LookAgain(r, ok) => KeepCreator(s, s', r);
  }

  lemma KeepCreator(s: State, s': State, r: nat)
    requires r < |s.requests| == |s'.requests| && !s.requests[r].Answered?
    requires forall q :: 0 <= q < |s.requests| && q != r ==> s'.requests[q] == s.requests[q]
    ensures (exists q :: 0 <= q < |s.requests| && s.requests[q].Answered? && s.requests[q].reply.Created?) ==>
      exists q :: 0 <= q < |s'.requests| && s'.requests[q].Answered? && s'.requests[q].reply.Created?
  {
    if q :| 0 <= q < |s.requests| && s.requests[q].Answered? && s.requests[q].reply.Created? {
      assert s'.requests[q] == s.requests[q];
    }
  }

  lemma {:induction false} ServedRun(s: State, ls: seq<Label>, key: nat, idem: string, creator: bool)
    requires Served(s, key, idem, creator) && Runs(s, ls, key, idem)
    requires forall k :: 0 <= k < |ls| ==> Faultless(ls[k])
    ensures Served(Exec(s, ls, key, idem), key, idem, creator)
    decreases |ls|
  {
    if ls != [] {
      assert Faultless(ls[0]);
      ServedStep(s, ls[0], key, idem, creator);
      hide Served, Enabled, Apply;
      ServedRun(Apply(s, ls[0], key, idem), ls[1..], key, idem, creator);
    }
  }

  /** If the database works and every request is answered, all are answered with success, the row
      exists, and exactly one request was told it created the row, unless it existed before. */
  lemma AllServed(s: State, ls: seq<Label>, key: nat, idem: string)
    requires AllBegin(s) && |s.requests| > 0 && AtMostOneRow(s.table, key, idem) && Runs(s, ls, key, idem)
    requires forall k :: 0 <= k < |ls| ==> Faultless(ls[k])
    requires forall r :: 0 <= r < |Exec(s, ls, key, idem).requests| ==> Exec(s, ls, key, idem).requests[r].Answered?
    ensures var s' := Exec(s, ls, key, idem);
      && (forall r :: 0 <= r < |s'.requests| ==> Succeeded(s'.requests[r]))
      && KeyTaken(s'.table, key, idem) && AtMostOneRow(s'.table, key, idem)
      && (!KeyTaken(s.table, key, idem) ==>
            exists r :: 0 <= r < |s'.requests| && s'.requests[r].reply.Created?)
      && (forall q, r :: 0 <= q < r < |s'.requests| ==>
            !(s'.requests[q].reply.Created? && s'.requests[r].reply.Created?))
  {
    var s' := Exec(s, ls, key, idem);
    RunInv(s, ls, key, idem);
    ServedRun(s, ls, key, idem, !KeyTaken(s.table, key, idem));
    RequestsStay(s, ls, key, idem);
    assert s'.requests[0].Answered?;
  }

  lemma {:induction false} RequestsStay(s: State, ls: seq<Label>, key: nat, idem: string)
    requires Runs(s, ls, key, idem)
    ensures |Exec(s, ls, key, idem).requests| == |s.requests|
    decreases |ls|
  {
    if ls != [] {
      RequestsStay(Apply(s, ls[0], key, idem), ls[1..], key, idem);
    }
  }

  // ---------------------------------------------------------------- the rest of the program is "elsewhere"

  lemma SameKeyColumns(t: Table, t': Table, key: nat, idem: string)
    requires |t| == |t'|
    requires forall i :: 0 <= i < |t| ==>
      t'[i].apiKeyId == t[i].apiKeyId && t'[i].idempotencyKey == t[i].idempotencyKey
    ensures KeepsKeys(t, t', key, idem)
  {
  }

  /** Every step of the delivery protocol counts as elsewhere, except an insert with this key. */
  lemma ProtocolIsElsewhere(c: P.Config, s: P.State, l: P.Label, key: nat, idem: string)
    requires P.Enabled(c, s, l) && !(l.Enqueue? && HasKey(l.e, key, idem))
    ensures KeepsKeys(s.table, P.Apply(c, s, l).table, key, idem)
  {
    hide KeepsKeys;
    if l.Enqueue? {
      assert P.Apply(c, s, l).table == s.table + [NewRow(l.e, l.at)];
      InsertIsElsewhere(s.table, l.e, l.at, key, idem);
    } else {
      KeyColumnsStay(c, s, l);
      SameKeyColumns(s.table, P.Apply(c, s, l).table, key, idem);
    }
  }

  lemma InsertIsElsewhere(t: Table, e: Email, at: string, key: nat, idem: string)
    requires !HasKey(e, key, idem)
    ensures KeepsKeys(t, t + [NewRow(e, at)], key, idem)
  {
  }

  // ---------------------------------------------------------------- the unique index over whole runs

  /** No step of the delivery protocol but an insert touches the key columns. */
  lemma KeyColumnsStay(c: P.Config, s: P.State, l: P.Label)
    requires P.Enabled(c, s, l) && !l.Enqueue?
    ensures var t := P.Apply(c, s, l).table;
      && |t| == |s.table|
      && forall i :: 0 <= i < |t| ==>
           t[i].apiKeyId == s.table[i].apiKeyId && t[i].idempotencyKey == s.table[i].idempotencyKey
  {
    hide Leq, P.AcceptedInFlight, P.TimeText.FmtTime;
    if l.Claim? {
      P.ClaimInRange(s.table, l.ids, P.Batch(c), P.TimeText.FmtTime(s.now));
    }
  }

  lemma UniqueStep(c: P.Config, s: P.State, l: P.Label)
    requires KeysUnique(s.table) && P.Enabled(c, s, l)
    ensures KeysUnique(P.Apply(c, s, l).table)
  {
    if l.Enqueue? {
      assert !KeyTaken(s.table, l.e.apiKeyId, l.e.idempotencyKey);
    } else {
      KeyColumnsStay(c, s, l);
    }
  }

  /** Over every run of the delivery protocol, crashes included, an API key and an idempotency key
      have at most one row. */
  lemma {:induction false} UniqueRun(c: P.Config, s: P.State, ls: seq<P.Label>)
    requires KeysUnique(s.table) && P.Runs(c, s, ls)
    ensures KeysUnique(P.Exec(c, s, ls).table)
    decreases |ls|
  {
    if ls != [] {
      UniqueStep(c, s, ls[0]);
      hide P.Enabled, P.Apply, KeysUnique;
      UniqueRun(c, P.Apply(c, s, ls[0]), ls[1..]);
    }
  }
}
