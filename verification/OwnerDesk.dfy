// The connection on which dispositions, acknowledgements and manifests are written: each
// method issues the statements of its source function, and rolls back where it does.

module OwnerDesk {
  import opened Common
  import opened ContentTables
  import opened OwnerLedger
  import opened OwnerAnswers

  class Desk {
    var rows: map<nat, Row>
    var refusals: map<nat, OwnerLedger.Refusal>
    var grants: map<Resource, Grant>
    var consumed: map<nat, Consumption>
    var nextGrant: nat
    var jobs: seq<nat>

    function Value(): Ledger
      reads this
    {
      Ledger(rows, refusals, grants, consumed, nextGrant, jobs)
    }

    constructor ()
      ensures Value() == Ledger(map[], map[], map[], map[], 1, [])
    {
      rows, refusals, grants, consumed, nextGrant, jobs := map[], map[], map[], map[], 1, [];
    }

    method Rollback(begin: Ledger)
      modifies this
      ensures Value() == begin
    {
      rows, refusals, grants := begin.rows, begin.refusals, begin.grants;
      consumed, nextGrant, jobs := begin.consumed, begin.nextGrant, begin.jobs;
    }

    /** `consume_owner_delegation`: the primary key refuses a second receipt. */
    method Consume(grant: nat, receipt: Consumption) returns (ok: bool)
      modifies this`consumed
      ensures ok <==> grant !in old(consumed)
      ensures consumed == if ok then old(consumed)[grant := receipt] else old(consumed)
    {
      if grant in consumed { return false; }
      consumed := consumed[grant := receipt];
      ok := true;
    }

    /** From the first write of `record_disposition` to its commit or rollback. */
    method Commit(id: nat, req: Request, seen: Row, grant: Option<nat>, now: nat) returns (outcome: Outcome)
      requires id in rows
      modifies this
      ensures (Value(), outcome) == OwnerLedger.Commit(old(Value()), id, req, seen, grant, now)
    {
      hide HasTag, NoteFor;
      var begin := Value();
      var added := req.choice.Synced? && !HasTag(seen.tags, "PROCESSED");
      if added { rows := rows[id := rows[id].(tags := seen.tags + ["PROCESSED"])]; }
      if req.choice.Synced? && rows[id].disposition == Some(Synced) {
        Rollback(begin);
        return if SameReceipt(rows[id], req) then Replayed else Refused(ImmutableReceipt);
      }
      rows := rows[id := rows[id].(
        disposition := Some(req.choice), decidedBy := Some(req.caller), at := Some(now),
        system := if req.choice.Synced? then req.system else None,
        reference := if req.choice.Synced? then req.reference else None,
        policyRef := if req.choice.Synced? then None else req.policyRef,
        reason := if req.choice.Synced? then None else req.reason,
        note := NoteFor(seen, req))];
      assert rows == begin.rows[id := Written(begin.rows[id], seen, req, now)];
      if grant.Some? {
        var ok := Consume(grant.value, Consumption(req.caller, Disposed(req.choice), OfRow(id, rows[id])));
        if !ok {
          Rollback(begin);
          return Refused(AlreadyConsumed);
        }
      }
      if req.choice.Synced? { jobs := jobs + [id]; }
      outcome := Recorded(added);
    }

    /** `resolve_owner_delegation`: observe the resource, join grant and consumption, compare. */
    method ResolveGrant(r: Resource, owner: Caller, caller: Caller) returns (standing: Resolution)
      ensures standing == Resolve(Value(), r, owner, caller)
    {
      hide HasTag;
      if !Present(Value(), r) { return ResourceChanged; }
      var observed := ImageOf(Value(), r);
      if r !in grants { return NoGrant; }
      var grant := grants[r];
      if grant.owner != owner || OwnerIn(observed) != owner || grant.delegate != caller { return ResourceChanged; }
      var accepted := {grant.image};
      if grant.id in consumed { accepted := accepted + {consumed[grant.id].result}; }
      if observed !in accepted { return ResourceChanged; }
      standing := if grant.id in consumed then Used(grant.id, consumed[grant.id]) else Active(grant.id);
    }

    /** `record_disposition` up to its first write: the row is read, its tags and owner are
        checked, and a receipt, a spent grant and a downgrade are answered in that order. */
    method ReadPhase(id: nat, req: Request) returns (seen: Seen)
      ensures seen == Select(Value(), id, req)
      ensures seen.Proceed? ==>
                && Complete(req) && id in rows && Shipped(rows[id]) && seen.row == rows[id]
                && !(req.choice.Synced? && rows[id].disposition == Some(Synced))
                && (seen.grant.None? <==> rows[id].source == req.caller)
    {
      hide Resolve;
      var isSynced := req.choice.Synced?;
      if isSynced {
        if Blank(req.system) || Blank(req.reference) { return Answer(Refused(BadRequest)); }
      } else if Blank(req.reason) {
        return Answer(Refused(BadRequest));
      }
      if id !in rows { return Answer(Refused(NotFound)); }
      var row := rows[id];
      if !HasTag(row.tags, "SHIPPED") { return Answer(Refused(NotShipped)); }
      var grant: Option<nat>, spent: Option<Consumption> := None, None;
      if row.source != req.caller {
        var standing := ResolveGrant(ActivityDisposition(id), row.source, req.caller);
        match standing {
          case ResourceChanged => return Answer(Refused(GrantChanged));
          case NoGrant => return Answer(Refused(NotDelegated));
          case Active(g) => grant := Some(g);
          case Used(g, receipt) => grant, spent := Some(g), Some(receipt);
        }
      }
      if isSynced && row.disposition == Some(Synced) {
        return Answer(if SameReceipt(row, req) then Replayed else Refused(ImmutableReceipt));
      }
      if spent.Some? {
        var same := !isSynced && spent.value.action == Disposed(req.choice) && row.disposition == Some(req.choice);
        return Answer(if same then Replayed else Refused(AlreadyConsumed));
      }
      if !isSynced && row.disposition == Some(Synced) { return Answer(Refused(Downgrade)); }
      seen := Proceed(row, grant);
    }

    /** `record_disposition`, uninterrupted.  Besides being the specified call: what it
        answers tells what happened to the row, and no other row is touched. */
    method Record(id: nat, req: Request, now: nat) returns (outcome: Outcome)
      modifies this
      ensures (Value(), outcome) == OwnerLedger.Record(old(Value()), id, req, now)
      ensures !outcome.Recorded? ==> Value() == old(Value())
      ensures id in old(rows) && old(rows)[id].source == req.caller ==>
                (outcome.Recorded? <==>
                   Complete(req) && Shipped(old(rows)[id]) && old(rows)[id].disposition != Some(Synced))
      ensures outcome.Recorded? ==>
                && Complete(req) && id in old(rows) && Shipped(old(rows)[id]) && old(rows)[id].disposition != Some(Synced)
                && rows == old(rows)[id := rows[id]] && rows[id].source == old(rows)[id].source
                && rows[id].disposition == Some(req.choice) && rows[id].decidedBy == Some(req.caller)
                && jobs == (if req.choice.Synced? then old(jobs) + [id] else old(jobs))
      ensures outcome == Replayed ==> id in rows && rows[id].disposition == Some(req.choice)
    {
      hide HasTag, Resolve, NoteFor, SameReceipt;
      var seen := ReadPhase(id, req);
      match seen {
        case Answer(answer) => outcome := answer;
        case Proceed(row, grant) => outcome := Commit(id, req, row, grant, now);
      }
      RecordedMeans(old(Value()), id, req, now);
      hide Complete, Shipped;
      if !Complete(req) || id !in old(rows) || !Shipped(old(rows)[id]) { NobodyRecordsUnshipped(old(Value()), id, req, now); }
      if id in old(rows) && old(rows)[id].source == req.caller { OwnerIsAnswered(old(Value()), id, req, now); }
    }

    /** `acknowledge_snapshot_refusal_record`; a CHECK failure rolls back and raises. */
    method Acknowledge(caller: Caller, id: nat, decision: Decision, now: nat) returns (outcome: AckOutcome)
      modifies this
      ensures (Value(), outcome) == OwnerLedger.Acknowledge(old(Value()), caller, id, decision, now)
      ensures outcome != AckDone ==> Value() == old(Value())
    {
      hide HasTag, Resolve;
      var begin := Value();
      if id !in refusals { return AckNotFound; }
      var refusal := refusals[id];
      var grant: Option<nat>, active := None, true;
      if refusal.caller != caller {
        var standing := ResolveGrant(SnapshotRefusal(id), refusal.caller, caller);
        match standing {
          case ResourceChanged => return AckGrantChanged;
          case NoGrant => return AckOwnerMismatch;
          case Active(g) => grant := Some(g);
          case Used(g, _) => grant, active := Some(g), false;
        }
      }
      if refusal.decision.Some? {
        return if refusal.decision == Some(decision) then AckReplayed else AckAlreadyAcknowledged;
      }
      if !active { return AckAlreadyConsumed; }
      if caller != Cc && caller != Codex { return AckConstraint; }
      refusals := refusals[id := refusal.(decision := Some(decision), ackBy := Some(caller), at := Some(now))];
      if grant.Some? {
        ActiveIsUnspent(begin, SnapshotRefusal(id), refusal.caller, caller);
        var ok := Consume(grant.value, Consumption(caller, Acknowledged(decision), OfRefusal(id, refusals[id])));
        assert ok;
      }
      outcome := AckDone;
    }

    /** One item: the grant's id and whether it was inserted, or the raise. */
    method GrantItem(m: Manifest, item: Item) returns (granted: Option<(nat, bool)>)
      modifies this
      ensures granted.Some? <==> ApplyItem(old(Value()), m, item).Some?
      ensures granted.Some? ==> Some(Value()) == ApplyItem(old(Value()), m, item)
      ensures granted.Some? && !granted.value.1 ==> Value() == old(Value())
      ensures granted.Some? ==> item.resource in grants && grants[item.resource].id == granted.value.0
      ensures granted.None? ==> Value() == old(Value())
    {
      hide Matches;
      if !Matches(Value(), item) { return None; }
      if item.resource in grants {
        var existing := grants[item.resource];
        return if existing == GrantFor(m, item, existing.id) then Some((existing.id, false)) else None;
      }
      var id := nextGrant;
      grants, nextGrant := grants[item.resource := GrantFor(m, item, id)], nextGrant + 1;
      granted := Some((id, true));
    }

    /** The item loop, up to the first item that raises. */
    method GrantItems(m: Manifest) returns (ok: bool, inserted: seq<nat>, replayed: seq<nat>)
      modifies this
      ensures ok <==> ApplyItems(old(Value()), m, |m.items|).Some?
      ensures ok ==> ApplyItems(old(Value()), m, |m.items|) == Some(Value())
      ensures ok ==> |inserted| + |replayed| == |m.items|
      ensures ok && inserted == [] ==> Value() == old(Value())
    {
      hide ApplyItem;
      ghost var begin := Value();
      inserted, replayed := [], [];
      var i := 0;
      assert ApplyItems(begin, m, 0) == Some(begin);
      hide ApplyItems;
      while i < |m.items|
        invariant 0 <= i <= |m.items|
        invariant ApplyItems(begin, m, i) == Some(Value())
        invariant |inserted| + |replayed| == i
        invariant inserted == [] ==> Value() == begin
      {
        NextItem(begin, m, i);
        ghost var before := Value();
        var granted := GrantItem(m, m.items[i]);
        assert ApplyItems(begin, m, i + 1) == ApplyItem(before, m, m.items[i]);
        if granted.None? {
          StaysRefused(begin, m, i + 1, |m.items|);
          return false, inserted, replayed;
        }
        if granted.value.1 { inserted := inserted + [granted.value.0]; } else { replayed := replayed + [granted.value.0]; }
        i := i + 1;
      }
      ok := true;
    }

    /** `apply_owner_delegation_manifest`: one transaction over every item; returns the ids
        inserted and replayed, or nothing after a rollback. */
    method ApplyManifest(m: Manifest) returns (done: Option<(seq<nat>, seq<nat>)>)
      modifies this
      ensures Value() == Perform(old(Value()), OwnerLedger.ApplyManifest(m))
      ensures done.Some? <==> ApplyItems(old(Value()), m, |m.items|).Some?
      ensures done.Some? ==> |done.value.0| + |done.value.1| == |m.items|
      ensures done.Some? && done.value.0 == [] ==> Value() == old(Value())
    {
      hide ApplyItems;
      var begin := Value();
      var ok, inserted, replayed := GrantItems(m);
      if !ok {
        Rollback(begin);
        return None;
      }
      done := Some((inserted, replayed));
    }
  }

  lemma RecordedMeans(l: Ledger, id: nat, req: Request, now: nat)
    ensures
      var (after, outcome) := OwnerLedger.Record(l, id, req, now);
      && (!outcome.Recorded? ==> after == l)
      && (outcome == Replayed ==> id in l.rows && l.rows[id].disposition == Some(req.choice))
      && (outcome.Recorded? ==>
            && id in l.rows && l.rows[id].disposition != Some(Synced) && id in after.rows
            && after.rows == l.rows[id := after.rows[id]] && after.rows[id].source == l.rows[id].source
            && after.rows[id].disposition == Some(req.choice) && after.rows[id].decidedBy == Some(req.caller)
            && after.jobs == (if req.choice.Synced? then l.jobs + [id] else l.jobs))
  {
    hide HasTag, Resolve, NoteFor;
  }

  lemma ActiveIsUnspent(l: Ledger, r: Resource, owner: Caller, caller: Caller)
    ensures
      var standing := Resolve(l, r, owner, caller);
      standing.Active? ==> r in l.grants && standing.grant == l.grants[r].id && standing.grant !in l.consumed
  {
    hide HasTag;
  }

  lemma NextItem(l: Ledger, m: Manifest, i: nat)
    requires i < |m.items| && ApplyItems(l, m, i).Some?
    ensures ApplyItems(l, m, i + 1) == ApplyItem(ApplyItems(l, m, i).value, m, m.items[i])
  {
  }

  lemma {:induction false} StaysRefused(l: Ledger, m: Manifest, i: nat, n: nat)
    requires i <= n <= |m.items| && ApplyItems(l, m, i).None?
    ensures ApplyItems(l, m, n).None?
  {
    if i < n { StaysRefused(l, m, i, n - 1); }
  }
}
