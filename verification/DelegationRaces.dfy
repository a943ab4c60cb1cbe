// One-time grants when calls interleave between their SELECT and their first write: the
// primary key still spends a grant once, while the image is not looked at again.

module DelegationRaces {
  import opened Common
  import opened ContentTables
  import opened OwnerLedger
  import opened DispositionSafety
  import opened DelegationSafety
  import opened DispositionRaces

  /** A call in flight under a grant selected exactly the image that the grant names. */
  predicate SelectedItsImage(l: Ledger, c: Call) {
    c.grant.Some? ==>
      var r := ActivityDisposition(c.id);
      && r in l.grants && l.grants[r].id == c.grant.value && l.grants[r].image == OfRow(c.id, c.row)
      && l.grants[r].delegate == c.req.caller
  }

  ghost predicate GrantsSelected(w: World) { forall pid :: pid in w.calls ==> SelectedItsImage(w.ledger, w.calls[pid]) }

  /** The finishing call writes under its grant. */
  predicate FinishesUnderGrant(w: World, step: DispositionRaces.Step, r: Resource) {
    && step.Finish? && step.pid in w.calls && w.calls[step.pid].id in w.ledger.rows
    && var c := w.calls[step.pid];
       && c.grant.Some? && r == ActivityDisposition(c.id)
       && Commit(w.ledger, c.id, c.req, c.row, c.grant, step.now).1.Recorded?
  }

  /** The step writes to the resource for someone who does not own it. */
  predicate DelegatedStep(w: World, step: DispositionRaces.Step, r: Resource) {
    FinishesUnderGrant(w, step, r) || (step.Whole? && DelegatedWrite(w.ledger, step.op, r))
  }

  lemma SelectUnderGrant(l: Ledger, id: nat, req: Request)
    ensures
      match Select(l, id, req)
      case Answer(_) => true
      case Proceed(row, grant) => id in l.rows && row == l.rows[id] && SelectedItsImage(l, Call(id, req, row, grant))
  {
    hide HasTag;
  }

  /** What a commit does to the grants and their consumptions. */
  lemma CommitSpends(l: Ledger, id: nat, req: Request, seen: Row, grant: Option<nat>, now: nat)
    requires id in l.rows
    ensures
      var (after, outcome) := Commit(l, id, req, seen, grant, now);
      && after.grants == l.grants && after.nextGrant == l.nextGrant
      && (!outcome.Recorded? || grant.None? ==> after.consumed == l.consumed)
      && (outcome.Recorded? && grant.Some? ==>
            && grant.value !in l.consumed
            && after.consumed == l.consumed[grant.value := Consumption(req.caller, Disposed(req.choice), OfRow(id, after.rows[id]))])
  {
    hide HasTag, NoteFor;
  }

  lemma StillSelected(l: Ledger, after: Ledger, c: Call)
    requires SelectedItsImage(l, c) && forall r :: r in l.grants ==> r in after.grants && after.grants[r] == l.grants[r]
    ensures SelectedItsImage(after, c)
  {
  }

  lemma NextKeepsSelections(w: World, step: DispositionRaces.Step)
    requires GrantsOk(w.ledger) && GrantsSelected(w)
    ensures GrantsOk(Next(w, step).ledger) && GrantsSelected(Next(w, step))
  {
    hide Commit, Select, Perform, SelectedItsImage;
    var after := Next(w, step);
    match step {
      case Begin(pid, id, req) => SelectUnderGrant(w.ledger, id, req);
      case Finish(pid, now) =>
        if pid in w.calls && w.calls[pid].id in w.ledger.rows {
          var c := w.calls[pid];
          assert SelectedItsImage(w.ledger, c);
          CommitSpends(w.ledger, c.id, c.req, c.row, c.grant, now);
          GrantedIdIsOld(w.ledger, c);
          forall p | p in after.calls ensures SelectedItsImage(after.ledger, after.calls[p]) {
            StillSelected(w.ledger, after.ledger, w.calls[p]);
          }
        }
      case Whole(op) =>
        PerformKeepsGrants(w.ledger, op);
        forall p | p in after.calls ensures SelectedItsImage(after.ledger, after.calls[p]) {
          StillSelected(w.ledger, after.ledger, w.calls[p]);
        }
    }
  }

  lemma GrantedIdIsOld(l: Ledger, c: Call)
    requires GrantsOk(l) && SelectedItsImage(l, c)
    ensures c.grant.Some? ==> c.grant.value < l.nextGrant
  {
  }

  /** The spent mark moves exactly with a delegated step, whatever is in flight. */
  lemma MarkMovesWithTheStep(w: World, step: DispositionRaces.Step, r: Resource)
    requires GrantsOk(w.ledger) && GrantsSelected(w)
    ensures Spent(Next(w, step).ledger, r) <==> Spent(w.ledger, r) || DelegatedStep(w, step, r)
    ensures DelegatedStep(w, step, r) ==> !Spent(w.ledger, r)
  {
    hide Commit, Select, Perform, DelegatedWrite;
    match step {
      case Begin(pid, id, req) =>
      case Finish(pid, now) =>
        if pid in w.calls && w.calls[pid].id in w.ledger.rows {
          var c := w.calls[pid];
          assert SelectedItsImage(w.ledger, c);
          CommitSpends(w.ledger, c.id, c.req, c.row, c.grant, now);
          var own := ActivityDisposition(c.id);
          if c.grant.Some? && r != own && r in w.ledger.grants { DistinctGrants(w.ledger, own, r); }
        }
      case Whole(op) => SpentMovesWithTheWrite(w.ledger, op, r);
    }
  }

  function DelegatedSteps(w: World, steps: seq<DispositionRaces.Step>, r: Resource): nat
    decreases |steps|
  {
    if steps == [] then 0
    else (if DelegatedStep(w, steps[0], r) then 1 else 0) + DelegatedSteps(Next(w, steps[0]), steps[1..], r)
  }

  /** One-time use over every interleaving: a resource suffers at most one delegated write,
      and its grant is spent exactly when that write has happened. */
  lemma {:induction false} OneDelegatedStepPerResource(w: World, steps: seq<DispositionRaces.Step>, r: Resource)
    requires GrantsOk(w.ledger) && GrantsSelected(w)
    ensures Mark(w.ledger, r) + DelegatedSteps(w, steps, r) == Mark(RunSteps(w, steps).ledger, r)
    ensures DelegatedSteps(w, steps, r) <= 1
    decreases |steps|
  {
    hide Next, GrantsOk, GrantsSelected, Spent;
    if steps != [] {
      NextKeepsSelections(w, steps[0]);
      MarkMovesWithTheStep(w, steps[0], r);
      OneDelegatedStepPerResource(Next(w, steps[0]), steps[1..], r);
    }
  }

  /** A write under a grant finds the image that the grant names exactly when the row has
      not changed since the call selected it. */
  lemma ExactImageIffRowUnchanged(w: World, step: DispositionRaces.Step, r: Resource)
    requires GrantsSelected(w) && FinishesUnderGrant(w, step, r)
    ensures
      var c := w.calls[step.pid];
      && r in w.ledger.grants
      && (w.ledger.grants[r].image == OfRow(c.id, w.ledger.rows[c.id]) <==> w.ledger.rows[c.id] == c.row)
  {
    assert SelectedItsImage(w.ledger, w.calls[step.pid]);
  }

  /** The other case arises: the owner decides while the delegate's call is in flight, and
      the delegate's policy is written over that decision under the unspent grant. */
  lemma DelegateCanWriteOnAStaleImage(w: World, id: nat, req: Request, own: Request, now: nat, later: nat)
    requires GrantsOk(w.ledger) && GrantsSelected(w)
    requires id in w.ledger.rows && own.caller == w.ledger.rows[id].source && WellFormed(own) && !own.choice.Synced?
    requires HasTag(w.ledger.rows[id].tags, "SHIPPED") && w.ledger.rows[id].disposition.None?
    requires WellFormed(req) && !req.choice.Synced? && req.caller != own.caller
    requires Resolve(w.ledger, ActivityDisposition(id), own.caller, req.caller).Active?
    ensures
      var mid := Next(Next(w, Begin(0, id, req)), Whole(RecordDisposition(id, own, now)));
      && mid.ledger.rows[id].disposition == Some(own.choice)
      && FinishesUnderGrant(mid, Finish(0, later), ActivityDisposition(id))
      && mid.ledger.rows[id] != mid.calls[0].row
  {
    hide HasTag, NoteFor;
    var one := Next(w, Begin(0, id, req));
    var grant := w.ledger.grants[ActivityDisposition(id)].id;
    assert one.calls[0] == Call(id, req, w.ledger.rows[id], Some(grant)) && one.ledger == w.ledger;
  }
}
