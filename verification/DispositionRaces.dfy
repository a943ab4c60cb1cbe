// Disposition calls that other calls interrupt between their SELECT and their first
// write: what the guard of the synced UPDATE still keeps, and what nothing guards.

module DispositionRaces {
  import opened Common
  import opened ContentTables
  import opened OwnerLedger
  import opened DispositionSafety

  /** A call that has read its row and not yet written. */
  datatype Call = Call(id: nat, req: Request, row: Row, grant: Option<nat>)

  datatype World = World(ledger: Ledger, calls: map<nat, Call>)

  datatype Step =
    | Begin(pid: nat, id: nat, req: Request)
    | Finish(pid: nat, now: nat)
    | Whole(op: Op)

  function Next(w: World, step: Step): World {
    match step
    case Begin(pid, id, req) =>
      (match Select(w.ledger, id, req)
       case Answer(_) => w
       case Proceed(row, grant) => w.(calls := w.calls[pid := Call(id, req, row, grant)]))
    case Finish(pid, now) =>
      if pid !in w.calls || w.calls[pid].id !in w.ledger.rows then w
      else
        var c := w.calls[pid];
        World(Commit(w.ledger, c.id, c.req, c.row, c.grant, now).0, w.calls - {pid})
    case Whole(op) => w.(ledger := Perform(w.ledger, op))
  }

  function RunSteps(w: World, steps: seq<Step>): World
    decreases |steps|
  {
    if steps == [] then w else RunSteps(Next(w, steps[0]), steps[1..])
  }

  /** This step completes a policy call that selected the row before it was synced. */
  predicate StalePolicyFinish(w: World, step: Step, id: nat) {
    && step.Finish? && step.pid in w.calls
    && var c := w.calls[step.pid];
       c.id == id && !c.req.choice.Synced? && !(c.grant.Some? && c.grant.value in w.ledger.consumed)
  }

  /** Proof of sync is overwritten exactly by a policy call that was already in flight. */
  lemma SyncedOverwrittenIffStalePolicy(w: World, step: Step, id: nat)
    requires IsSynced(w.ledger, id)
    ensures id in Next(w, step).ledger.rows
    ensures Next(w, step).ledger.rows[id] != w.ledger.rows[id] <==> StalePolicyFinish(w, step, id)
    ensures StalePolicyFinish(w, step, id) ==> !IsSynced(Next(w, step).ledger, id)
  {
    hide Select, HasTag, NoteFor, Perform;
    if step.Whole? { RowStep(w.ledger, step.op, id); }
  }

  /** The condition can arise: a policy call starts, the receipt commits, the call ends. */
  lemma StalePolicyOverwritesAReceipt(w: World, id: nat, policy: Request, receipt: Request, now: nat)
    requires id in w.ledger.rows && HasTag(w.ledger.rows[id].tags, "SHIPPED") && !IsSynced(w.ledger, id)
    requires policy.caller == receipt.caller == w.ledger.rows[id].source
    requires WellFormed(policy) && WellFormed(receipt) && receipt.choice.Synced? && !policy.choice.Synced?
    ensures
      var mid := RunSteps(w, [Begin(0, id, policy), Whole(RecordDisposition(id, receipt, now))]);
      IsSynced(mid.ledger, id) && !IsSynced(Next(mid, Finish(0, now)).ledger, id)
  {
    hide HasTag, NoteFor;
    var steps: seq<Step> := [Begin(0, id, policy), Whole(RecordDisposition(id, receipt, now))];
    var one := Next(w, steps[0]);
    assert one.calls[0] == Call(id, policy, w.ledger.rows[id], None) && one.ledger == w.ledger;
    assert steps[1..] == [steps[1]];
    var last: seq<Step> := steps[1..];
    assert last[1..] == [];
    var mid := RunSteps(w, steps);
    assert mid == RunSteps(one, last) == RunSteps(Next(one, last[0]), last[1..]) == Next(one, steps[1]);
  }

  // ---- Competing receipts ------------------------------------------------------------------

  /** No policy call on this row is in flight or started by this step. */
  predicate ReceiptsOnly(w: World, id: nat) {
    forall pid :: pid in w.calls && w.calls[pid].id == id ==> w.calls[pid].req.choice.Synced?
  }

  predicate BeginsReceiptsOnly(step: Step, id: nat) { step.Begin? && step.id == id ==> step.req.choice.Synced? }

  /** Until a receipt wins, every call in flight still sees the row's own tags. */
  predicate TagsFresh(w: World, id: nat) {
    forall pid :: pid in w.calls && w.calls[pid].id == id ==>
      id in w.ledger.rows && (IsSynced(w.ledger, id) || w.calls[pid].row.tags == w.ledger.rows[id].tags)
  }

  predicate Sound(w: World, id: nat) {
    && ReceiptsOnly(w, id) && TagsFresh(w, id) && JobsFor(w.ledger, id)
    && (id in w.ledger.rows ==> Processed(w.ledger.rows[id]))
  }

  lemma WholeKeepsSound(w: World, op: Op, id: nat)
    requires Sound(w, id)
    ensures Sound(Next(w, Whole(op)), id)
  {
    hide Perform, HasTag, NoteFor, Processed, JobsFor;
    PerformKeepsDispositions(w.ledger, op, id);
    RowStep(w.ledger, op, id);
    if op.RecordDisposition? && id in w.ledger.rows { WrittenTags(w.ledger.rows[id], op.req, op.now); }
  }

  lemma BeginKeepsSound(w: World, pid: nat, id: nat, req: Request, who: nat)
    requires Sound(w, id) && BeginsReceiptsOnly(Begin(pid, who, req), id)
    ensures Sound(Next(w, Begin(pid, who, req)), id)
  {
    hide HasTag, Processed, JobsFor, Resolve;
  }

  /** A commit changes nothing, or writes its own row and, for a receipt, one job. */
  lemma CommitEffect(l: Ledger, id: nat, req: Request, seen: Row, grant: Option<nat>, now: nat)
    requires id in l.rows
    ensures
      var after := Commit(l, id, req, seen, grant, now).0;
      || after == l
      || (&& !(req.choice.Synced? && IsSynced(l, id))
          && after.rows == l.rows[id := Written(l.rows[id], seen, req, now)]
          && after.jobs == if req.choice.Synced? then l.jobs + [id] else l.jobs)
  {
    hide HasTag, NoteFor;
  }

  lemma ReceiptTags(row: Row, seen: Row, req: Request, now: nat)
    requires req.choice.Synced? && seen.tags == row.tags
    ensures Processed(Written(row, seen, req, now))
  {
    AppendedTag(row.tags, "PROCESSED", "PROCESSED");
    assert Upper("PROCESSED") == "PROCESSED";
  }

  lemma FinishKeepsSound(w: World, pid: nat, now: nat, id: nat)
    requires Sound(w, id)
    ensures Sound(Next(w, Finish(pid, now)), id)
  {
    hide Commit, HasTag, NoteFor, Select, Processed;
    if pid in w.calls && w.calls[pid].id in w.ledger.rows {
      var c := w.calls[pid];
      CommitEffect(w.ledger, c.id, c.req, c.row, c.grant, now);
      if c.id == id && !IsSynced(w.ledger, id) { ReceiptTags(w.ledger.rows[id], c.row, c.req, now); }
    }
  }

  /** However receipt calls interleave with each other and with whole calls, one receipt
      wins: the row is synced once, with one job and its tag, and then never changes. */
  lemma {:induction false} ReceiptRacesHaveOneWinner(w: World, steps: seq<Step>, id: nat)
    requires Sound(w, id)
    requires forall i :: 0 <= i < |steps| ==> BeginsReceiptsOnly(steps[i], id)
    ensures Sound(RunSteps(w, steps), id)
    ensures IsSynced(w.ledger, id) ==>
      id in RunSteps(w, steps).ledger.rows && RunSteps(w, steps).ledger.rows[id] == w.ledger.rows[id]
    decreases |steps|
  {
    if steps != [] {
      var step := steps[0];
      match step {
        case Begin(pid, who, req) => BeginKeepsSound(w, pid, id, req, who);
        case Finish(pid, now) => FinishKeepsSound(w, pid, now, id);
        case Whole(op) => WholeKeepsSound(w, op, id);
      }
      if IsSynced(w.ledger, id) {
        SyncedOverwrittenIffStalePolicy(w, step, id);
        assert !StalePolicyFinish(w, step, id);
      }
      hide Next, Sound;
      ReceiptRacesHaveOneWinner(Next(w, step), steps[1..], id);
    }
  }

  /** A receipt call that finds the row synced rolls its tag edit back and changes nothing,
      and is told that it replayed exactly when its receipt is the stored one. */
  lemma LoserChangesNothing(l: Ledger, id: nat, req: Request, seen: Row, grant: Option<nat>, now: nat)
    requires IsSynced(l, id) && req.choice.Synced?
    ensures Commit(l, id, req, seen, grant, now).0 == l
    ensures Commit(l, id, req, seen, grant, now).1.Replayed? <==>
      && l.rows[id].decidedBy == Some(req.caller) && l.rows[id].system == req.system
      && l.rows[id].reference == req.reference && l.rows[id].note == req.notes
  {
  }

  /** Exactly when a receipt keeps the policy decision that it supersedes, as an
      uninterrupted call would, whoever calls: the call had selected the row under a policy
      that leaves the same words. */
  lemma PolicyKeptIffTheCallSawIt(l: Ledger, id: nat, req: Request, seen: Row, grant: Option<nat>, now: nat)
    requires id in l.rows && HasPolicy(l.rows[id]) && req.choice.Synced? && seen.disposition != Some(Synced)
    requires Commit(l, id, req, seen, grant, now).1.Recorded?
    ensures
      var note := Commit(l, id, req, seen, grant, now).0.rows[id].note;
      (note == NoteFor(l.rows[id], req)) <==>
      (HasPolicy(seen) && SupersededNote(seen) == SupersededNote(l.rows[id]))
  {
    hide HasTag, SupersededNote;
    var row := l.rows[id];
    assert Commit(l, id, req, seen, grant, now).0.rows[id].note == NoteFor(seen, req);
    SupersededNoteDiffers(row, req);
    if HasPolicy(seen) {
      var prefix := if Blank(req.notes) then "" else req.notes.value + "; ";
      SameAfterPrefix(prefix, SupersededNote(seen), SupersededNote(row));
    }
  }

  lemma SameAfterPrefix(prefix: string, a: string, b: string)
    ensures prefix + a == prefix + b <==> a == b
  {
    if prefix + a == prefix + b {
      assert a == (prefix + a)[|prefix|..] && b == (prefix + b)[|prefix|..];
    }
  }

  /** A policy decision taken while a receipt call is in flight can so be erased by it. */
  lemma LateReceiptForgetsThePolicy(w: World, id: nat, receipt: Request, policy: Request, now: nat)
    requires id in w.ledger.rows && HasTag(w.ledger.rows[id].tags, "SHIPPED") && w.ledger.rows[id].disposition.None?
    requires policy.caller == receipt.caller == w.ledger.rows[id].source
    requires WellFormed(policy) && WellFormed(receipt) && receipt.choice.Synced? && !policy.choice.Synced?
    ensures
      var mid := Next(Next(w, Begin(0, id, receipt)), Whole(RecordDisposition(id, policy, now)));
      var end := Next(mid, Finish(0, now));
      && mid.ledger.rows[id].reason == policy.reason
      && end.ledger.rows[id].disposition == Some(Synced)
      && end.ledger.rows[id].reason.None? && end.ledger.rows[id].note == receipt.notes
  {
    hide HasTag;
    var one := Next(w, Begin(0, id, receipt));
    assert one.calls[0] == Call(id, receipt, w.ledger.rows[id], None) && one.ledger == w.ledger;
  }
}
