/** Cancel and retry by the admin (internal/admin/admin.go): each handler reads the row, decides, and
    then writes under a guard on the status. Any run of the delivery protocol can lie between the
    read and the write: other admins, the API, the worker and crashes. */
module AdminActions {
  import opened Text
  import opened TimeText
  import opened Emails
  import opened Protocol
  import opened ProtocolInvariant
  import opened ProtocolRuns

  /** How an admin action on one email ends. */
  datatype ActionResult = Done | NotFound | StatusForbids

  /** What a handler does after its read: answer at once, or write. An empty `newTo` keeps the
      recipient. */
  datatype Decision = Refuse(r: ActionResult) | Write(newTo: string, newToName: string)

  /** A recipient as the form gives it, parsed; the parser never returns an empty address. */
  datatype Recipient = Recipient(to: string, name: string)

  function RecipientOf(e: Email): Recipient {
    Recipient(e.to, e.toName)
  }

  function DecideCancel(t: Table, id: nat): Decision {
    if id >= |t| then Refuse(NotFound)
    else if !Cancelable(t[id].status) then Refuse(StatusForbids)
    else Write("", "")
  }

  /** An unchanged recipient is not written. */
  function DecideRetry(t: Table, id: nat, submitted: Option<Recipient>): Decision {
    if id >= |t| then Refuse(NotFound)
    else if !Requeueable(t[id].status) then Refuse(StatusForbids)
    else if submitted.Some? && submitted.value != RecipientOf(t[id]) then Write(submitted.value.to, submitted.value.name)
    else Write("", "")
  }

  datatype Ended = Ended(reply: ActionResult, table: Table)

  /** The guarded writes, on the table as it is by then. */
  function FinishCancel(t: Table, id: nat, d: Decision): Ended {
    if d.Refuse? then Ended(d.r, t)
    else Ended(if id < |t| && Cancelable(t[id].status) then Done else StatusForbids, Cancelled(t, id))
  }

  function FinishRetry(t: Table, id: nat, d: Decision, now: string): Ended {
    if d.Refuse? then Ended(d.r, t)
    else Ended(if id < |t| && Requeueable(t[id].status) then Done else StatusForbids,
               Requeued(t, id, d.newTo, d.newToName, now))
  }

  /** The handlers as if run in one step. */
  function CancelAt(t: Table, id: nat): Ended {
    FinishCancel(t, id, DecideCancel(t, id))
  }

  function RetryAt(t: Table, id: nat, submitted: Option<Recipient>, now: string): Ended {
    FinishRetry(t, id, DecideRetry(t, id, submitted), now)
  }

  // ---------------------------------------------------------------- between the read and the write

  lemma {:induction false} RowsStay(c: Config, s: State, ls: seq<Label>)
    requires Runs(c, s, ls)
    ensures |s.table| <= |Exec(c, s, ls).table|
    decreases |ls|
  {
    if ls != [] {
      assert |s.table| <= |Apply(c, s, ls[0]).table| by {
        hide FmtTime, IsClaim, AcceptedInFlight;
      }
      hide Enabled, Apply;
      RowsStay(c, Apply(c, s, ls[0]), ls[1..]);
    }
  }

  /** A step that re-addresses the email: a retry of it with another recipient. */
  predicate Readdresses(l: Label, id: nat) {
    l.Requeue? && l.id == id && l.newTo != ""
  }

  lemma RecipientStep(c: Config, s: State, l: Label, id: nat)
    requires Enabled(c, s, l) && id < |s.table| && !Readdresses(l, id)
    ensures id < |Apply(c, s, l).table| && RecipientOf(Apply(c, s, l).table[id]) == RecipientOf(s.table[id])
  {
    hide FmtTime, IsClaim, AcceptedInFlight, Leq;
  }

  lemma {:induction false} RecipientStays(c: Config, s: State, ls: seq<Label>, id: nat)
    requires Runs(c, s, ls) && id < |s.table| && forall k :: 0 <= k < |ls| ==> !Readdresses(ls[k], id)
    ensures id < |Exec(c, s, ls).table| && RecipientOf(Exec(c, s, ls).table[id]) == RecipientOf(s.table[id])
    decreases |ls|
  {
    if ls != [] {
      RecipientStep(c, s, ls[0], id);
      hide Enabled, Apply, Readdresses;
      RecipientStays(c, Apply(c, s, ls[0]), ls[1..], id);
    }
  }

  // ---------------------------------------------------------------- cancel

  /** A cancel, whatever runs between its read and its write, is the same as the handler run in one
      step: at the read if it refuses there, else at the write. It answers success exactly if the
      row is canceled by it, and then the rest of the run is a run after the protocol's cancel. */
  lemma CancelIsLinearizable(c: Config, s: State, ls: seq<Label>, id: nat)
    requires Runs(c, s, ls)
    ensures var (d, t) := (DecideCancel(s.table, id), Exec(c, s, ls).table);
      var end := FinishCancel(t, id, d);
      && (if d.Refuse? then end == Ended(CancelAt(s.table, id).reply, t) && CancelAt(s.table, id).table == s.table
          else end == CancelAt(t, id))
      && (end.reply == Done <==> end.table != t)
      && (end.reply == Done ==> id < |t| && t[id].status == Queued && end.table == t[id := t[id].(status := Canceled)])
      && (d.Write? ==> end.table == Apply(c, Exec(c, s, ls), Cancel(id)).table)
  {
    RowsStay(c, s, ls);
    var t := Exec(c, s, ls).table;
    if id < |t| && Cancelable(t[id].status) {
      assert Cancelled(t, id)[id].status == Canceled;
    }
  }

  /** After a cancel that answered success no Send of the email starts until a retry of it, whatever
      ran between the handler's read and its write. */
  lemma CanceledMeansNoSend(c: Config, s: State, ls: seq<Label>, id: nat, more: seq<Label>)
    requires Inv(c, s) && Runs(c, s, ls)
    requires FinishCancel(Exec(c, s, ls).table, id, DecideCancel(s.table, id)).reply == Done
    requires Runs(c, Apply(c, Exec(c, s, ls), Cancel(id)), more)
    requires forall k :: 0 <= k < |more| ==> !Requeues(more[k], id)
    ensures var s' := Apply(c, Exec(c, s, ls), Cancel(id));
      && id < |s'.table| && s'.table[id].status == Canceled
      && Occurrences(c, s', more, id, SendStarts) == 0
      && id < |Exec(c, s', more).table| && Exec(c, s', more).table[id] == s'.table[id]
  {
    hide Inv, Enabled, Runs, Exec, Occurrences;
    RunInv(c, s, ls);
    var s1 := Exec(c, s, ls);
    assert Enabled(c, s1, Cancel(id)) by {
      CancelIsEnabled(c, s1, id);
    }
    StepInv(c, s1, Cancel(id));
    SettledUntilRequeue(c, Apply(c, s1, Cancel(id)), more, id);
  }

  lemma CancelIsEnabled(c: Config, s: State, id: nat)
    ensures Enabled(c, s, Cancel(id))
  {
  }

  // ---------------------------------------------------------------- retry

  /** A retry answers success exactly if its write puts the row on the queue with a fresh schedule; a
      refused retry changes nothing; and the write is the protocol's requeue. */
  lemma RetryReplies(c: Config, s: State, ls: seq<Label>, id: nat, submitted: Option<Recipient>, now: string)
    requires Runs(c, s, ls)
    ensures var (d, t) := (DecideRetry(s.table, id, submitted), Exec(c, s, ls).table);
      var end := FinishRetry(t, id, d, now);
      && (d.Refuse? ==> end == Ended(RetryAt(s.table, id, submitted, now).reply, t))
      && (d.Write? ==> id < |t| && end.table == Apply(c, Exec(c, s, ls), Requeue(id, d.newTo, d.newToName, now)).table)
      && (end.reply != Done ==> end.table == t)
      && (end.reply == Done <==> d.Write? && t[id].status !in {Sending, Sent})
      && (end.reply == NotFound <==> id >= |s.table|)
      && (end.reply == Done ==>
            && |end.table| == |t| && (forall k :: 0 <= k < |t| && k != id ==> end.table[k] == t[k])
            && end.table[id].status == Queued && end.table[id].attempts == 0 && end.table[id].nextAttemptAt == now
            && end.table[id].lastError == "" && SameContent(t[id], end.table[id]))
  {
    RowsStay(c, s, ls);
  }

  /** A retry without a submitted recipient leaves the recipient and the recorded first address as they
      are at its write, whatever ran in between. */
  lemma NoRecipientKeepsAddress(c: Config, s: State, ls: seq<Label>, id: nat, now: string)
    requires Runs(c, s, ls)
    requires FinishRetry(Exec(c, s, ls).table, id, DecideRetry(s.table, id, None), now).reply == Done
    ensures var t := Exec(c, s, ls).table;
      && id < |t|
      && var row := FinishRetry(t, id, DecideRetry(s.table, id, None), now).table[id];
      && row.to == t[id].to && row.toName == t[id].toName && row.originalTo == t[id].originalTo
  {
    RowsStay(c, s, ls);
  }

  /** With a new recipient the replaced address is recorded once: in an empty original_to, and only if
      the address changes. */
  lemma ReplacedAddressIsRecorded(c: Config, s: State, ls: seq<Label>, id: nat, submitted: Recipient, now: string)
    requires Runs(c, s, ls) && submitted.to != ""
    requires FinishRetry(Exec(c, s, ls).table, id, DecideRetry(s.table, id, Some(submitted)), now).reply == Done
    requires submitted != RecipientOf(s.table[id])
    ensures var t := Exec(c, s, ls).table;
      && id < |t|
      && FinishRetry(t, id, DecideRetry(s.table, id, Some(submitted)), now).table[id].originalTo
         == if t[id].originalTo == "" && t[id].to != submitted.to then t[id].to else t[id].originalTo
  {
    RowsStay(c, s, ls);
  }

  /** The recipient after a successful retry is the submitted one if and only if it differs from the
      one the handler read, or the row's recipient is still that one at the write. */
  lemma SubmittedIsStoredExactly(c: Config, s: State, ls: seq<Label>, id: nat, submitted: Recipient, now: string)
    requires Runs(c, s, ls) && submitted.to != ""
    requires FinishRetry(Exec(c, s, ls).table, id, DecideRetry(s.table, id, Some(submitted)), now).reply == Done
    ensures var t := Exec(c, s, ls).table;
      && id < |s.table| <= |t|
      && (RecipientOf(FinishRetry(t, id, DecideRetry(s.table, id, Some(submitted)), now).table[id]) == submitted
          <==> submitted != RecipientOf(s.table[id]) || RecipientOf(t[id]) == RecipientOf(s.table[id]))
  {
    RowsStay(c, s, ls);
  }

  /** Under the same condition, and only under it, the interleaved retry is the handler run in one
      step at its write, the recorded first address included. */
  lemma RetryIsLinearizableExactly(c: Config, s: State, ls: seq<Label>, id: nat, submitted: Recipient, now: string)
    requires Runs(c, s, ls) && submitted.to != ""
    requires FinishRetry(Exec(c, s, ls).table, id, DecideRetry(s.table, id, Some(submitted)), now).reply == Done
    ensures var t := Exec(c, s, ls).table;
      && id < |s.table| <= |t|
      && (FinishRetry(t, id, DecideRetry(s.table, id, Some(submitted)), now) == RetryAt(t, id, Some(submitted), now)
          <==> submitted != RecipientOf(s.table[id]) || RecipientOf(t[id]) == RecipientOf(s.table[id]))
  {
    RowsStay(c, s, ls);
    var t := Exec(c, s, ls).table;
    var end := FinishRetry(t, id, DecideRetry(s.table, id, Some(submitted)), now);
    var atOnce := RetryAt(t, id, Some(submitted), now);
    assert RecipientOf(atOnce.table[id]) == submitted;
    if RecipientOf(end.table[id]) == submitted {
      assert end.table[id] == atOnce.table[id];
      assert end.table == atOnce.table;
    }
  }

  /** So the submitted recipient is stored whenever nobody else re-addresses the email in between,
      whatever else happens. */
  lemma SubmittedIsStored(c: Config, s: State, ls: seq<Label>, id: nat, submitted: Recipient, now: string)
    requires Runs(c, s, ls) && submitted.to != ""
    requires FinishRetry(Exec(c, s, ls).table, id, DecideRetry(s.table, id, Some(submitted)), now).reply == Done
    requires forall k :: 0 <= k < |ls| ==> !Readdresses(ls[k], id)
    ensures id < |Exec(c, s, ls).table|
         && RecipientOf(FinishRetry(Exec(c, s, ls).table, id, DecideRetry(s.table, id, Some(submitted)), now).table[id]) == submitted
  {
    SubmittedIsStoredExactly(c, s, ls, id, submitted, now);
    RecipientStays(c, s, ls, id);
  }

  /** Two admins: the first reads the recipient and submits it unchanged; before its write the second
      corrects the recipient. The email goes to the second one's. */
  lemma UnchangedRecipientLosesRace(c: Config, s: State, id: nat, other: Recipient, at: string, now: string)
    requires id < |s.table| && s.table[id].status == Failed && other.to != "" && other != RecipientOf(s.table[id])
    ensures var ls := [Requeue(id, other.to, other.name, at)];
      && Runs(c, s, ls)
      && var end := FinishRetry(Exec(c, s, ls).table, id, DecideRetry(s.table, id, Some(RecipientOf(s.table[id]))), now);
      && end.reply == Done && id < |end.table| && RecipientOf(end.table[id]) == other != RecipientOf(s.table[id])
  {
    var l := Requeue(id, other.to, other.name, at);
    assert [l][1..] == [];
    assert Exec(c, s, [l]) == Apply(c, s, l);
  }
}
