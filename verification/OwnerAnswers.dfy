// What a disposition or acknowledgement call answers, and what it writes: told from the
// request, the row and the tables alone, for owners and for delegates.

module OwnerAnswers {
  import opened Common
  import opened ContentTables
  import opened OwnerLedger

  predicate Given(text: Option<string>) { text.Some? && |text.value| > 0 }

  /** Proof of sync names its system and reference, a policy decision its reason. */
  predicate Complete(req: Request) {
    if req.choice == Synced then Given(req.system) && Given(req.reference) else Given(req.reason)
  }

  predicate Shipped(row: Row) { exists i :: 0 <= i < |row.tags| && Upper(row.tags[i]) == "SHIPPED" }

  /** The row already carries this very receipt. */
  predicate Carries(row: Row, req: Request) {
    && row.disposition == Some(Synced) && row.decidedBy == Some(req.caller)
    && row.system == req.system && row.reference == req.reference && row.note == req.notes
  }

  /** The grant on a resource is for this pair of principals. */
  predicate ForPair(l: Ledger, r: Resource, owner: Caller, caller: Caller) {
    r in l.grants && l.grants[r].owner == owner && l.grants[r].delegate == caller
  }

  /** It is unspent and names exactly this image. */
  predicate Open(l: Ledger, r: Resource, image: Image, owner: Caller, caller: Caller) {
    ForPair(l, r, owner, caller) && l.grants[r].id !in l.consumed && l.grants[r].image == image
  }

  /** It is spent, and the image is the one it was issued for or the one it led to. */
  predicate UsedUp(l: Ledger, r: Resource, image: Image, owner: Caller, caller: Caller) {
    && ForPair(l, r, owner, caller) && l.grants[r].id in l.consumed
    && (image == l.grants[r].image || image == l.consumed[l.grants[r].id].result)
  }

  /** Every answer to an owner, or about a row that is not there. */
  lemma OwnerIsAnswered(l: Ledger, id: nat, req: Request, now: nat)
    requires id in l.rows ==> l.rows[id].source == req.caller
    ensures
      var out := Record(l, id, req, now).1;
      && (out == Refused(BadRequest) <==> !Complete(req))
      && (out == Refused(NotFound) <==> Complete(req) && id !in l.rows)
      && (out == Refused(NotShipped) <==> Complete(req) && id in l.rows && !Shipped(l.rows[id]))
      && (Complete(req) && id in l.rows && Shipped(l.rows[id]) ==>
            var row := l.rows[id];
            && (out.Recorded? <==> row.disposition != Some(Synced))
            && (out == Replayed <==> req.choice == Synced && Carries(row, req))
            && (out == Refused(ImmutableReceipt) <==>
                  req.choice == Synced && row.disposition == Some(Synced) && !Carries(row, req))
            && (out == Refused(Downgrade) <==> req.choice != Synced && row.disposition == Some(Synced)))
  {
    hide NoteFor;
  }

  /** Every answer to somebody else about a shipped row. */
  lemma DelegateIsAnswered(l: Ledger, id: nat, req: Request, now: nat)
    requires Complete(req) && id in l.rows && l.rows[id].source != req.caller && Shipped(l.rows[id])
    ensures
      var out := Record(l, id, req, now).1;
      var row, r := l.rows[id], ActivityDisposition(id);
      var open := Open(l, r, OfRow(id, row), row.source, req.caller);
      var used := UsedUp(l, r, OfRow(id, row), row.source, req.caller);
      var receipts := req.choice == Synced && row.disposition == Some(Synced);
      var repeated := used && req.choice != Synced && row.disposition == Some(req.choice)
                      && l.consumed[l.grants[r].id].action == Disposed(req.choice);
      && (out == Refused(NotDelegated) <==> r !in l.grants)
      && (out == Refused(GrantChanged) <==> r in l.grants && !open && !used)
      && (out.Recorded? <==> open && row.disposition != Some(Synced))
      && (out == Replayed <==> repeated || ((open || used) && receipts && Carries(row, req)))
      && (out == Refused(ImmutableReceipt) <==> (open || used) && receipts && !Carries(row, req))
      && (out == Refused(AlreadyConsumed) <==> used && !receipts && !repeated)
      && (out == Refused(Downgrade) <==> open && req.choice != Synced && row.disposition == Some(Synced))
  {
    hide NoteFor, Written;
  }

  /** Requests that lack a field, and rows that never shipped, are refused to everybody. */
  lemma NobodyRecordsUnshipped(l: Ledger, id: nat, req: Request, now: nat)
    requires !Complete(req) || id !in l.rows || !Shipped(l.rows[id])
    ensures
      Record(l, id, req, now) ==
      (l, Refused(if !Complete(req) then BadRequest else if id !in l.rows then NotFound else NotShipped))
  {
  }

  /** What is recorded: the request's words, its caller and time; a receipt carries no policy
      and a policy no receipt; a delegate's grant is spent on the very row that results. */
  lemma RecordedRow(l: Ledger, id: nat, req: Request, now: nat)
    requires Record(l, id, req, now).1.Recorded?
    ensures
      var after := Record(l, id, req, now).0;
      && id in l.rows && id in after.rows
      && var row, was := after.rows[id], l.rows[id];
         && row.source == was.source && row.content == was.content
         && row.disposition == Some(req.choice) && row.decidedBy == Some(req.caller) && row.at == Some(now)
         && (req.choice == Synced ==>
               && row.system == req.system && row.reference == req.reference
               && row.policyRef.None? && row.reason.None?
               && (was.disposition.None? ==> row.note == req.notes))
         && (req.choice != Synced ==>
               && row.system.None? && row.reference.None? && row.tags == was.tags
               && row.policyRef == req.policyRef && row.reason == req.reason && row.note == req.notes)
         && after == l.(rows := l.rows[id := row], consumed := after.consumed,
                        jobs := if req.choice == Synced then l.jobs + [id] else l.jobs)
         && (req.caller == was.source ==> after.consumed == l.consumed)
         && (req.caller != was.source ==>
               && ActivityDisposition(id) in l.grants
               && after.consumed == l.consumed[l.grants[ActivityDisposition(id)].id :=
                                                 Consumption(req.caller, Disposed(req.choice), OfRow(id, row))])
  {
    hide HasTag;
  }

  /** Every answer to an acknowledgement. */
  lemma AcknowledgerIsAnswered(l: Ledger, caller: Caller, id: nat, decision: Decision, now: nat)
    ensures
      var out := Acknowledge(l, caller, id, decision, now).1;
      && (out == AckNotFound <==> id !in l.refusals)
      && (id in l.refusals ==>
            var refusal, r := l.refusals[id], SnapshotRefusal(id);
            var own := refusal.caller == caller;
            var open := own || Open(l, r, OfRefusal(id, refusal), refusal.caller, caller);
            var used := !own && UsedUp(l, r, OfRefusal(id, refusal), refusal.caller, caller);
            && (out == AckOwnerMismatch <==> !own && r !in l.grants)
            && (out == AckGrantChanged <==> r in l.grants && !open && !used)
            && (out == AckDone <==> open && refusal.decision.None? && caller in {Cc, Codex})
            && (out == AckConstraint <==> open && refusal.decision.None? && caller !in {Cc, Codex})
            && (out == AckReplayed <==> (open || used) && refusal.decision == Some(decision))
            && (out == AckAlreadyAcknowledged <==>
                  (open || used) && refusal.decision.Some? && refusal.decision != Some(decision))
            && (out == AckAlreadyConsumed <==> used && refusal.decision.None?))
  {
  }

  /** What an acknowledgement writes, and that nothing else ever does. */
  lemma AcknowledgedRefusal(l: Ledger, caller: Caller, id: nat, decision: Decision, now: nat)
    ensures
      var (after, out) := Acknowledge(l, caller, id, decision, now);
      if out != AckDone then after == l
      else
        && id in l.refusals && id in after.refusals
        && var refusal, was := after.refusals[id], l.refusals[id];
           && refusal.caller == was.caller && refusal.content == was.content
           && refusal.decision == Some(decision) && refusal.ackBy == Some(caller) && refusal.at == Some(now)
           && after == l.(refusals := l.refusals[id := refusal], consumed := after.consumed)
           && (caller == was.caller ==> after.consumed == l.consumed)
           && (caller != was.caller ==>
                 && SnapshotRefusal(id) in l.grants
                 && after.consumed == l.consumed[l.grants[SnapshotRefusal(id)].id :=
                                                   Consumption(caller, Acknowledged(decision), OfRefusal(id, refusal))])
  {
  }

  /** Rows and refusals enter once, nobody having decided on them. */
  lemma RecordsEnterOpen(l: Ledger, id: nat, row: Row, refusal: OwnerLedger.Refusal)
    ensures Perform(l, NewRow(id, row)) ==
            if id in l.rows || row.disposition.Some? then l else l.(rows := l.rows[id := row])
    ensures Perform(l, NewRefusal(id, refusal)) ==
            if id in l.refusals || refusal.decision.Some? then l else l.(refusals := l.refusals[id := refusal])
  {
  }
}
