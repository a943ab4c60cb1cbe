// The lease directory and a server's tracker as the objects that change them: each method
// performs the durable steps of its source function one at a time.

module TenancyStore {
  import opened Common
  import opened TenancyPolicy
  import opened TenancyRoot
  import opened TenancyTracker

  class LeaseRoot {
    var active: map<nat, Lease>
    var history: map<HistoryName, Entry>
    var retire: map<nat, Marker>
    var script: Script

    constructor (d: Disk, faults: Script)
      ensures Contents() == d && script == faults
    {
      active, history, retire, script := d.active, d.history, d.retire, faults;
    }

    function Contents(): Disk
      reads this
    {
      Disk(active, history, retire)
    }

    /** The fault of the next durable step. */
    method TakeFault() returns (f: Fault)
      modifies this`script
      ensures f == NextFault(old(script)) && script == Rest(old(script))
    {
      f := NextFault(script);
      script := Rest(script);
    }

    /** Archive unless archived, read back, unlink. */
    method ArchiveThenUnlink(id: nat, name: HistoryName, e: Entry) returns (outcome: Outcome)
      modifies this
      ensures Result(Contents(), outcome, script) == ArchiveAndUnlink(old(Contents()), id, name, e, old(script))
    {
      if name !in history {
        var f := TakeFault();
        if TakesEffect(f) { history := history[name := e]; }
        if f != Completes { return Stopped(f); }
      }
      if history[name].state != e.state { return Refused(ReadbackFailed); }
      var g := TakeFault();
      if TakesEffect(g) { active := active - {id}; }
      outcome := if g == Completes then Applied else Stopped(g);
    }

    method Retire(plan: Plan, p: Planned, state: ProcessState, now: Seconds) returns (outcome: Outcome)
      modifies this
      ensures Result(Contents(), outcome, script) == RetireOne(old(Contents()), plan, p, state, now, old(script))
    {
      hide ArchiveAndUnlink;
      var name := RetiredAs(p.id, p.decision, plan);
      if p.id !in active {
        if name !in history { return Refused(RecordInvalid); }
        return if Receipt(history[name], plan, p) then AlreadyComplete else Refused(ReceiptMismatch);
      }
      if active[p.id] != p.lease { return Refused(LeaseChanged); }
      if p.owner != p.lease.owner { return Refused(OwnerMismatch); }
      if p.lease.owner == "unknown" { return Refused(UnknownOwner); }
      if state != Expected(p.decision) { return Refused(ProcessChanged); }
      if name in history && !Receipt(history[name], plan, p) { return Refused(ReceiptMismatch); }
      outcome := ArchiveThenUnlink(p.id, name, Entry(p.lease, ByDecision(p.decision), now, Some(state), Some(plan)));
    }

    method RequestClose(p: Planned, state: ProcessState, observed: Option<seq<nat>>, now: Seconds) returns (outcome: Outcome)
      modifies this
      ensures Result(Contents(), outcome, script) == CloseOne(old(Contents()), p, state, observed, now, old(script))
    {
      if p.id !in active { return Refused(RecordInvalid); }
      if active[p.id] != p.lease { return Refused(LeaseChanged); }
      if p.owner != p.lease.owner { return Refused(OwnerMismatch); }
      if p.lease.owner == "unknown" { return Refused(UnknownOwner); }
      if p.lease.active != 0 { return Refused(ActiveRequest); }
      if state != Same { return Refused(ProcessChanged); }
      if p.ancestry != AncestrySame || observed != Some(p.lease.ancestry) { return Refused(AncestryMoved); }
      if p.id in retire {
        var same := retire[p.id].id == p.id && retire[p.id].generation == p.lease.generation;
        return if same then AlreadyComplete else Refused(MarkerMismatch);
      }
      var f := TakeFault();
      if TakesEffect(f) { retire := retire[p.id := Marker(p.id, p.lease.generation, now)]; }
      outcome := if f == Completes then Applied else Stopped(f);
    }

    /** `apply_lifecycle_plan`. */
    method ApplyPlan(plan: Plan, target: Option<nat>, state: ProcessState, observed: Option<seq<nat>>, now: Seconds)
      returns (outcome: Outcome)
      modifies this
      ensures Result(Contents(), outcome, script)
           == Apply(old(Contents()), plan, target, state, observed, now, old(script))
    {
      hide RetireOne, CloseOne;
      var chosen := Chosen(plan.decisions, target);
      if target.Some? {
        if |chosen| != 1 { return Refused(NotActionable); }
      } else if |chosen| > 1 {
        return Refused(MultipleNeedTarget);
      }
      if chosen == [] { return NothingToDo; }
      if Retires(chosen[0].decision) {
        outcome := Retire(plan, chosen[0], state, now);
      } else {
        outcome := RequestClose(chosen[0], state, observed, now);
      }
    }

    /** `quarantine_legacy_unknown_lease`. */
    method QuarantineLegacy(id: nat, source: Lease, state: ProcessState, now: Seconds) returns (outcome: Outcome)
      modifies this
      ensures Result(Contents(), outcome, script) == Quarantine(old(Contents()), id, source, state, now, old(script))
    {
      hide ArchiveAndUnlink;
      var name := QuarantinedAs(id, source);
      if id !in active {
        if name !in history { return Refused(RecordInvalid); }
        var same := history[name].lease == source && history[name].reason == LegacyUnknown;
        return if same then AlreadyComplete else Refused(ReceiptMismatch);
      }
      if active[id] != source { return Refused(LeaseChanged); }
      if source.owner != "unknown" || source.principal.Some? { return Refused(UnknownOwner); }
      if source.active != 0 { return Refused(ActiveRequest); }
      if state != Missing && state != Mismatch { return Refused(ProcessChanged); }
      if name in history && (history[name].lease != source || history[name].reason != LegacyUnknown) {
        return Refused(ReceiptMismatch);
      }
      outcome := ArchiveThenUnlink(id, name, Entry(source, LegacyUnknown, now, Some(state), None));
    }

    /** `plan_lifecycle`: owners are counted first, then every lease is decided. */
    method PlanLifecycle(leases: seq<Lease>, budgets: map<string, Budget>, states: seq<ProcessState>,
                         observed: seq<Option<seq<nat>>>, current: Option<nat>, now: Seconds) returns (plan: Plan)
      requires |states| == |leases| == |observed|
      ensures plan.created == now && |plan.decisions| == |leases|
      ensures forall i :: 0 <= i < |leases| ==>
        plan.decisions[i] == PlannedFor(leases, leases[i], budgets, states[i], observed[i], leases[i].id in retire, current, now)
    {
      hide Decide, Ancestry;
      var counts: map<string, nat> := map[];
      var i := 0;
      while i < |leases|
        invariant 0 <= i <= |leases|
        invariant forall k :: 0 <= k < i ==> leases[k].owner in counts
        invariant forall o :: (if o in counts then counts[o] else 0) == OwnerCount(leases[..i], o)
      {
        var o := leases[i].owner;
        assert leases[..i + 1][..i] == leases[..i];
        counts := counts[o := (if o in counts then counts[o] else 0) + 1];
        i := i + 1;
      }
      assert leases[..i] == leases;
      var decisions: seq<Planned> := [];
      i := 0;
      while i < |leases|
        invariant 0 <= i <= |leases| && |decisions| == i
        invariant forall k :: 0 <= k < i ==>
          decisions[k] == PlannedFor(leases, leases[k], budgets, states[k], observed[k], leases[k].id in retire, current, now)
      {
        var lease := leases[i];
        var budget := Get(budgets, lease.owner);
        var ancestry := if budget.None? then NotApplicable else Ancestry(lease, states[i], observed[i]);
        var decision := Decide(lease, budget, states[i], observed[i], counts[lease.owner], lease.id in retire, current, now);
        decisions := decisions + [Planned(lease.id, lease.owner, ancestry, decision, lease)];
        i := i + 1;
      }
      plan := Plan(now, decisions);
    }
  }

  class Tracker {
    const root: LeaseRoot
    var record: Lease
    ghost var started: nat
    ghost var finished: nat

    /** The file is the record, and the active count is what started less what finished. */
    ghost predicate Valid()
      reads this, root
    {
      && record.id in root.active && root.active[record.id] == record
      && record.active + finished == started && record.count == started
    }

    /** `start`: the file is linked without replacing another. */
    constructor (root: LeaseRoot, lease: Lease)
      requires lease.id !in root.active && lease.active == 0 && lease.count == 0
      modifies root`active
      ensures Valid() && this.root == root && record == lease && started == 0
      ensures root.active == old(root.active)[lease.id := lease]
    {
      this.root, record, started, finished := root, lease, 0, 0;
      new;
      root.active := root.active[lease.id := lease];
    }

    /** `_persist`. */
    method Persist(changed: Lease, s: Surroundings)
      requires changed.id == record.id
      modifies this`record, root`active
      ensures record == Refreshed(old(root.Contents()), changed, s)
      ensures root.active == old(root.active)[record.id := record]
    {
      var requested := changed.id in root.retire || s.drained;
      record := changed.(heartbeat := s.now, rss := s.rss, retirementRequested := requested,
                         retirementReady := requested && changed.active == 0);
      root.active := root.active[record.id := record];
    }

    /** `request_started`: refused for good once retirement is requested. */
    method RequestStarted(s: Surroundings) returns (accepted: bool)
      requires Valid()
      modifies this, root`active
      ensures Valid() && (record, accepted) == TenancyTracker.RequestStarted(old(root.Contents()), old(record), s)
      ensures started == old(started) + (if accepted then 1 else 0) && finished == old(finished)
      ensures accepted <==> !RetirementRequested(old(root.Contents()), old(record), s)
    {
      if record.id in root.retire || s.drained {
        Persist(record.(retirementRequested := true, retirementReady := true, reason := "retirement_refused_new_request"), s);
        return false;
      }
      Persist(record.(active := record.active + 1, count := record.count + 1, reason := "request_active"), s);
      started := started + 1;
      accepted := true;
    }

    /** `request_finished`. */
    method RequestFinished(succeeded: bool, s: Surroundings) returns (accepted: bool)
      requires Valid()
      modifies this, root`active
      ensures Valid() && (record, accepted) == TenancyTracker.RequestFinished(old(root.Contents()), old(record), succeeded, s)
      ensures finished == old(finished) + (if accepted then 1 else 0) && started == old(started)
    {
      if record.active < 1 { return false; }
      Persist(record.(active := record.active - 1, reason := if succeeded then "request_completed" else "request_failed"), s);
      finished := finished + 1;
      if record.retirementReady { Persist(record.(reason := "obsolete_generation_idle"), s); }
      accepted := true;
    }

    /** `retirement_ready`: true only when no request is in flight. */
    method RetirementReady(s: Surroundings) returns (ready: bool)
      requires Valid()
      modifies this`record, root`active
      ensures Valid() && record == Observed(old(root.Contents()), old(record), s).0
      ensures ready == Observed(old(root.Contents()), old(record), s).2
      ensures ready ==> started == finished
    {
      if !(record.id in root.retire || s.drained) { return false; }
      ready := record.active == 0;
      var before := record;
      record := record.(retirementRequested := true, retirementReady := ready,
                        reason := if ready then "obsolete_generation_idle" else record.reason);
      if record != before { Persist(record, s); }
    }

    /** `close`: archive, unlink, drop the close request; refused under an active request. */
    method Close(s: Surroundings) returns (outcome: Outcome)
      requires Valid()
      modifies root
      ensures Result(root.Contents(), outcome, root.script) == Closed(old(root.Contents()), record, s, old(root.script))
      ensures root.Contents() != old(root.Contents()) ==> started == finished
    {
      hide ArchiveAndUnlink;
      if record.active != 0 { return Refused(ActiveRequest); }
      var name := ClosedAs(record.id, s.now);
      if name in root.history { return Interrupted(Raised); }
      var requested := record.id in root.retire || s.drained;
      var closed := record.(retirementRequested := requested, retirementReady := requested, reason := "normal_close");
      outcome := root.ArchiveThenUnlink(record.id, name, Entry(closed, ClosedNormally, s.now, None, None));
      if outcome != Applied || record.id !in root.retire { return; }
      var f := root.TakeFault();
      if TakesEffect(f) { root.retire := root.retire - {record.id}; }
      outcome := if f == Completes then Applied else Stopped(f);
    }
  }
}
