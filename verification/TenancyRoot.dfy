// The lease directory: applying one exact planned effect, quarantining a legacy lease,
// and what both leave behind wherever they are interrupted.

module TenancyRoot {
  import opened Common
  import opened TenancyPolicy

  /** One decision of a plan; `lease` stands for the digest of the lease bytes. */
  datatype Planned = Planned(id: nat, owner: string, ancestry: AncestryState, decision: Decision, lease: Lease)

  /** A plan stands for its digest. */
  datatype Plan = Plan(created: Seconds, decisions: seq<Planned>)

  /** History file names carry an injective event digest. */
  datatype HistoryName =
    | RetiredAs(id: nat, decision: Decision, plan: Plan)
    | QuarantinedAs(id: nat, source: Lease)
    | ClosedAs(id: nat, at: Seconds)

  datatype Reason = ByDecision(decision: Decision) | LegacyUnknown | ClosedNormally

  /** A history receipt: the lease it preserves and why it left. */
  datatype Entry = Entry(lease: Lease, reason: Reason, at: Seconds, state: Option<ProcessState>, plan: Option<Plan>)

  datatype Marker = Marker(id: nat, generation: Option<nat>, at: Seconds)

  datatype Disk = Disk(active: map<nat, Lease>, history: map<HistoryName, Entry>, retire: map<nat, Marker>)

  datatype Refusal =
    | NotActionable | MultipleNeedTarget | RecordInvalid | ReceiptMismatch | LeaseChanged | OwnerMismatch
    | UnknownOwner | ActiveRequest | ProcessChanged | AncestryMoved | MarkerMismatch | ReadbackFailed

  datatype Outcome = NothingToDo | Applied | AlreadyComplete | Refused(why: Refusal) | Interrupted(step: Step)

  /** What one call leaves: the disk, its answer, and the faults not yet met. */
  datatype Result = Result(disk: Disk, outcome: Outcome, rest: Script)

  predicate TakesEffect(f: Fault) { f == Completes || f == RaisesAfter }

  function Stopped(f: Fault): Outcome { Interrupted(if f == Dies then Died else Raised) }

  // ---- Retirement ----------------------------------------------------------------------------

  predicate Retires(decision: Decision) { decision.RetireOrphan? || decision.RetirePidReused? }

  predicate IsActionable(decision: Decision) { Retires(decision) || decision.RequestCloseObsolete? }

  /** The decisions that this call may act on. */
  function Chosen(decisions: seq<Planned>, target: Option<nat>): seq<Planned> {
    if decisions == [] then []
    else
      var p := decisions[0];
      (if IsActionable(p.decision) && (target.None? || target.value == p.id) then [p] else [])
      + Chosen(decisions[1..], target)
  }

  function Expected(decision: Decision): ProcessState { if decision.RetireOrphan? then Missing else Mismatch }

  predicate Receipt(e: Entry, plan: Plan, p: Planned) {
    e.plan == Some(plan) && e.lease == p.lease && e.reason == ByDecision(p.decision)
  }

  /** The last two durable steps of every removal: archive unless archived, then unlink. */
  function ArchiveAndUnlink(d: Disk, id: nat, name: HistoryName, e: Entry, script: Script): Result {
    var first := if name in d.history then Completes else NextFault(script);
    var rest := if name in d.history then script else Rest(script);
    var archived := if name in d.history || !TakesEffect(first) then d else d.(history := d.history[name := e]);
    if first != Completes then Result(archived, Stopped(first), rest)
    else if archived.history[name].state != e.state then Result(archived, Refused(ReadbackFailed), rest)
    else
      var second := NextFault(rest);
      var gone := if TakesEffect(second) then archived.(active := archived.active - {id}) else archived;
      Result(gone, if second == Completes then Applied else Stopped(second), Rest(rest))
  }

  function RetireOne(d: Disk, plan: Plan, p: Planned, state: ProcessState, now: Seconds, script: Script): Result {
    var name := RetiredAs(p.id, p.decision, plan);
    if p.id !in d.active then
      if name !in d.history then Result(d, Refused(RecordInvalid), script)
      else if Receipt(d.history[name], plan, p) then Result(d, AlreadyComplete, script)
      else Result(d, Refused(ReceiptMismatch), script)
    else if d.active[p.id] != p.lease then Result(d, Refused(LeaseChanged), script)
    else if p.owner != p.lease.owner then Result(d, Refused(OwnerMismatch), script)
    else if p.lease.owner == "unknown" then Result(d, Refused(UnknownOwner), script)
    else if state != Expected(p.decision) then Result(d, Refused(ProcessChanged), script)
    else if name in d.history && !Receipt(d.history[name], plan, p) then Result(d, Refused(ReceiptMismatch), script)
    else ArchiveAndUnlink(d, p.id, name, Entry(p.lease, ByDecision(p.decision), now, Some(state), Some(plan)), script)
  }

  // ---- Cooperative close ---------------------------------------------------------------------

  function CloseOne(d: Disk, p: Planned, state: ProcessState, observed: Option<seq<nat>>, now: Seconds, script: Script): Result {
    if p.id !in d.active then Result(d, Refused(RecordInvalid), script)
    else if d.active[p.id] != p.lease then Result(d, Refused(LeaseChanged), script)
    else if p.owner != p.lease.owner then Result(d, Refused(OwnerMismatch), script)
    else if p.lease.owner == "unknown" then Result(d, Refused(UnknownOwner), script)
    else if p.lease.active != 0 then Result(d, Refused(ActiveRequest), script)
    else if state != Same then Result(d, Refused(ProcessChanged), script)
    else if p.ancestry != AncestrySame || observed != Some(p.lease.ancestry) then Result(d, Refused(AncestryMoved), script)
    else if p.id in d.retire then
      if d.retire[p.id].id == p.id && d.retire[p.id].generation == p.lease.generation
      then Result(d, AlreadyComplete, script) else Result(d, Refused(MarkerMismatch), script)
    else
      var f := NextFault(script);
      var marked := if TakesEffect(f) then d.(retire := d.retire[p.id := Marker(p.id, p.lease.generation, now)]) else d;
      Result(marked, if f == Completes then Applied else Stopped(f), Rest(script))
  }

  /** `apply_lifecycle_plan`: at most one effect. */
  function Apply(d: Disk, plan: Plan, target: Option<nat>, state: ProcessState, observed: Option<seq<nat>>,
                 now: Seconds, script: Script): Result {
    var chosen := Chosen(plan.decisions, target);
    if target.Some? && |chosen| != 1 then Result(d, Refused(NotActionable), script)
    else if |chosen| > 1 then Result(d, Refused(MultipleNeedTarget), script)
    else if chosen == [] then Result(d, NothingToDo, script)
    else if Retires(chosen[0].decision) then RetireOne(d, plan, chosen[0], state, now, script)
    else CloseOne(d, chosen[0], state, observed, now, script)
  }

  /** `quarantine_legacy_unknown_lease`. */
  function Quarantine(d: Disk, id: nat, source: Lease, state: ProcessState, now: Seconds, script: Script): Result {
    var name := QuarantinedAs(id, source);
    if id !in d.active then
      if name !in d.history then Result(d, Refused(RecordInvalid), script)
      else if d.history[name].lease == source && d.history[name].reason == LegacyUnknown then Result(d, AlreadyComplete, script)
      else Result(d, Refused(ReceiptMismatch), script)
    else if d.active[id] != source then Result(d, Refused(LeaseChanged), script)
    else if source.owner != "unknown" || source.principal.Some? then Result(d, Refused(UnknownOwner), script)
    else if source.active != 0 then Result(d, Refused(ActiveRequest), script)
    else if state != Missing && state != Mismatch then Result(d, Refused(ProcessChanged), script)
    else if name in d.history && (d.history[name].lease != source || d.history[name].reason != LegacyUnknown) then
      Result(d, Refused(ReceiptMismatch), script)
    else ArchiveAndUnlink(d, id, name, Entry(source, LegacyUnknown, now, Some(state), None), script)
  }

  // ---- Conservatism --------------------------------------------------------------------------

  /** What must hold of the world for a planned effect to be taken. */
  predicate MayAct(d: Disk, p: Planned, state: ProcessState, observed: Option<seq<nat>>) {
    && p.id in d.active && d.active[p.id] == p.lease && p.lease.owner == p.owner != "unknown"
    && (if Retires(p.decision) then state == Expected(p.decision)
        else state == Same && p.lease.active == 0 && observed == Some(p.lease.ancestry))
  }

  /** Every receipt stays; a lease leaves only into a receipt that preserves it. */
  ghost predicate LosesNothing(before: Disk, after: Disk) {
    && (forall name :: name in before.history ==> name in after.history && after.history[name] == before.history[name])
    && (forall id :: id in after.active ==> id in before.active && after.active[id] == before.active[id])
    && (forall id :: id in before.active && id !in after.active ==> Archived(after, id, before.active[id]))
  }

  ghost predicate Archived(d: Disk, id: nat, lease: Lease) {
    exists name :: name in d.history && name.id == id && d.history[name].lease == lease
  }

  ghost predicate SameAt<K, V>(a: map<K, V>, b: map<K, V>, k: K) { (k in a <==> k in b) && (k in a ==> a[k] == b[k]) }

  /** Other leases, their receipts and their markers are as they were. */
  ghost predicate OnlyTouches(before: Disk, after: Disk, id: nat) {
    && (forall other: nat :: other != id ==>
          SameAt(before.active, after.active, other) && SameAt(before.retire, after.retire, other))
    && (forall name: HistoryName :: name.id != id ==> SameAt(before.history, after.history, name))
  }

  /** No close request is withdrawn or rewritten. */
  ghost predicate MarkersStay(before: Disk, after: Disk) {
    forall id :: id in before.retire ==> id in after.retire && after.retire[id] == before.retire[id]
  }

  lemma ArchiveTouchesOnly(d: Disk, id: nat, name: HistoryName, e: Entry, script: Script)
    requires name.id == id
    ensures OnlyTouches(d, ArchiveAndUnlink(d, id, name, e, script).disk, id)
  {
  }

  lemma ArchiveLosesNothing(d: Disk, id: nat, name: HistoryName, e: Entry, script: Script)
    requires id in d.active && e.lease == d.active[id] && name.id == id
    requires name in d.history ==> d.history[name].lease == e.lease
    ensures LosesNothing(d, ArchiveAndUnlink(d, id, name, e, script).disk)
    ensures OnlyTouches(d, ArchiveAndUnlink(d, id, name, e, script).disk, id)
    ensures ArchiveAndUnlink(d, id, name, e, script).disk.retire == d.retire
  {
    ArchiveTouchesOnly(d, id, name, e, script);
    hide OnlyTouches;
    var after := ArchiveAndUnlink(d, id, name, e, script).disk;
    if id !in after.active { assert name in after.history && after.history[name].lease == e.lease; }
  }

  lemma RetireIsConservative(d: Disk, plan: Plan, p: Planned, state: ProcessState, now: Seconds, script: Script)
    requires Retires(p.decision)
    ensures
      var after := RetireOne(d, plan, p, state, now, script).disk;
      && LosesNothing(d, after) && MarkersStay(d, after)
      && (after != d ==> MayAct(d, p, state, None) && OnlyTouches(d, after, p.id) && after.retire == d.retire)
  {
    hide ArchiveAndUnlink, LosesNothing, OnlyTouches;
    NothingLost(d);
    var name := RetiredAs(p.id, p.decision, plan);
    if MayAct(d, p, state, None) && (name in d.history ==> Receipt(d.history[name], plan, p)) {
      ArchiveLosesNothing(d, p.id, name, Entry(p.lease, ByDecision(p.decision), now, Some(state), Some(plan)), script);
    }
  }

  lemma NothingLost(d: Disk)
    ensures LosesNothing(d, d) && MarkersStay(d, d)
  {
  }

  lemma CloseIsConservative(d: Disk, p: Planned, state: ProcessState, observed: Option<seq<nat>>, now: Seconds, script: Script)
    requires !Retires(p.decision)
    ensures
      var after := CloseOne(d, p, state, observed, now, script).disk;
      && LosesNothing(d, after) && MarkersStay(d, after)
      && (after != d ==>
            && MayAct(d, p, state, observed) && OnlyTouches(d, after, p.id)
            && after.active == d.active && after.history == d.history)
  {
  }

  /** Decision `i` asks for an effect, and for the targeted lease if there is a target. */
  predicate Eligible(decisions: seq<Planned>, target: Option<nat>, i: nat) {
    && i < |decisions| && decisions[i].decision in {RetireOrphan, RetirePidReused, RequestCloseObsolete}
    && (target.Some? ==> decisions[i].id == target.value)
  }

  ghost predicate OnlyEligible(decisions: seq<Planned>, target: Option<nat>, i: nat) {
    i < |decisions| && Eligible(decisions, target, i) && forall k: nat :: Eligible(decisions, target, k) ==> k == i
  }

  ghost predicate SeveralEligible(decisions: seq<Planned>, target: Option<nat>) {
    exists i: nat, k: nat :: i < k && Eligible(decisions, target, i) && Eligible(decisions, target, k)
  }

  lemma EligibleShifts(decisions: seq<Planned>, target: Option<nat>)
    requires decisions != []
    ensures forall i: nat :: Eligible(decisions, target, i + 1) <==> Eligible(decisions[1..], target, i)
    ensures forall i: nat :: i > 0 && Eligible(decisions, target, i) ==> Eligible(decisions[1..], target, i - 1)
  {
  }

  lemma {:induction false} ChosenAreEligible(decisions: seq<Planned>, target: Option<nat>)
    ensures var chosen := Chosen(decisions, target);
            if chosen == [] then forall i: nat :: !Eligible(decisions, target, i)
            else if |chosen| == 1 then exists i: nat :: OnlyEligible(decisions, target, i) && chosen[0] == decisions[i]
            else SeveralEligible(decisions, target)
  {
    if decisions != [] {
      var rest, more := decisions[1..], Chosen(decisions[1..], target);
      ChosenAreEligible(rest, target);
      EligibleShifts(decisions, target);
      var first := Eligible(decisions, target, 0);
      assert Chosen(decisions, target) == (if first then [decisions[0]] else []) + more;
      hide Chosen, Eligible;
      if |more| == 1 {
        var i: nat :| OnlyEligible(rest, target, i) && more[0] == rest[i];
        assert Eligible(decisions, target, i + 1);
        assert first || OnlyEligible(decisions, target, i + 1);
      } else if |more| > 1 {
        var i: nat, k: nat :| i < k && Eligible(rest, target, i) && Eligible(rest, target, k);
        assert Eligible(decisions, target, i + 1) && Eligible(decisions, target, k + 1);
      } else if first {
        assert OnlyEligible(decisions, target, 0);
      }
    }
  }

  /** Whatever a single effect answers, it is about that lease. */
  lemma OneEffectAnswers(d: Disk, plan: Plan, p: Planned, state: ProcessState, observed: Option<seq<nat>>, now: Seconds,
                         script: Script)
    ensures
      && RetireOne(d, plan, p, state, now, script).outcome !in {Refused(NotActionable), Refused(MultipleNeedTarget), NothingToDo}
      && CloseOne(d, p, state, observed, now, script).outcome !in {Refused(NotActionable), Refused(MultipleNeedTarget), NothingToDo}
  {
  }

  /** What the plan alone settles: a targeted call needs exactly one decision for an effect
      on its target, an untargeted one refuses to choose among several. */
  lemma ChoiceIsExact(d: Disk, plan: Plan, target: Option<nat>, state: ProcessState, observed: Option<seq<nat>>,
                      now: Seconds, script: Script)
    ensures
      var out := Apply(d, plan, target, state, observed, now, script).outcome;
      && (out == Refused(NotActionable) <==> target.Some? && !exists i: nat :: OnlyEligible(plan.decisions, target, i))
      && (out == Refused(MultipleNeedTarget) <==> target.None? && SeveralEligible(plan.decisions, target))
      && (out == NothingToDo <==> target.None? && forall i: nat :: !Eligible(plan.decisions, target, i))
  {
    hide RetireOne, CloseOne, Eligible, Chosen;
    ChosenAreEligible(plan.decisions, target);
    var chosen := Chosen(plan.decisions, target);
    if |chosen| == 1 {
      OneEffectAnswers(d, plan, chosen[0], state, observed, now, script);
      var i: nat :| OnlyEligible(plan.decisions, target, i) && chosen[0] == plan.decisions[i];
      assert Eligible(plan.decisions, target, i);
    } else if |chosen| > 1 {
      var i: nat, k: nat :| i < k && Eligible(plan.decisions, target, i) && Eligible(plan.decisions, target, k);
    }
  }

  /** However it is interrupted, applying a plan touches nothing unless exactly one of its
      decisions asks for an effect on the target, and the bytes, owner and process of that
      lease are still as planned; then it touches only that lease's own entries, and loses
      nothing. */
  lemma ApplyIsConservative(d: Disk, plan: Plan, target: Option<nat>, state: ProcessState, observed: Option<seq<nat>>,
                            now: Seconds, script: Script)
    ensures
      var after := Apply(d, plan, target, state, observed, now, script).disk;
      && LosesNothing(d, after) && MarkersStay(d, after)
      && (after != d ==>
            exists i: nat :: OnlyEligible(plan.decisions, target, i)
                        && var p := plan.decisions[i];
                           && MayAct(d, p, state, observed) && OnlyTouches(d, after, p.id)
                           && (if Retires(p.decision) then after.retire == d.retire
                               else after.active == d.active && after.history == d.history))
  {
    hide LosesNothing, OnlyTouches, RetireOne, CloseOne;
    NothingLost(d);
    ChosenAreEligible(plan.decisions, target);
    var chosen := Chosen(plan.decisions, target);
    if |chosen| == 1 {
      if Retires(chosen[0].decision) {
        RetireIsConservative(d, plan, chosen[0], state, now, script);
      } else {
        CloseIsConservative(d, chosen[0], state, observed, now, script);
      }
    }
  }

  lemma QuarantineLosesNothing(d: Disk, id: nat, source: Lease, state: ProcessState, now: Seconds, script: Script)
    ensures LosesNothing(d, Quarantine(d, id, source, state, now, script).disk)
    ensures Quarantine(d, id, source, state, now, script).disk.retire == d.retire
    ensures Quarantine(d, id, source, state, now, script).disk != d ==>
      && id in d.active && d.active[id] == source && source.owner == "unknown" && source.active == 0
      && (state == Missing || state == Mismatch) && OnlyTouches(d, Quarantine(d, id, source, state, now, script).disk, id)
  {
    hide ArchiveAndUnlink, LosesNothing, OnlyTouches;
    NothingLost(d);
    var name := QuarantinedAs(id, source);
    if id in d.active && d.active[id] == source && (name in d.history ==> d.history[name].lease == source) {
      ArchiveLosesNothing(d, id, name, Entry(source, LegacyUnknown, now, Some(state), None), script);
    }
  }

  /** Each answer of a quarantine that finds its lease, or no longer finds it. */
  lemma QuarantineIsAnswered(d: Disk, id: nat, source: Lease, state: ProcessState, now: Seconds, script: Script)
    ensures
      var r := Quarantine(d, id, source, state, now, script);
      var name := QuarantinedAs(id, source);
      var here := id in d.active && d.active[id] == source;
      var legacy := source.owner == "unknown" && source.principal.None?;
      var gone := state == Missing || state == Mismatch;
      var receipted := name in d.history && d.history[name].lease == source && d.history[name].reason == LegacyUnknown;
      && (r.outcome == Refused(LeaseChanged) <==> id in d.active && !here)
      && (r.outcome == Refused(UnknownOwner) <==> here && !legacy)
      && (r.outcome == Refused(ActiveRequest) <==> here && legacy && source.active > 0)
      && (r.outcome == Refused(ProcessChanged) <==> here && legacy && source.active == 0 && !gone)
      && (r.outcome == Refused(RecordInvalid) <==> id !in d.active && name !in d.history)
      && (r.outcome == AlreadyComplete <==> id !in d.active && receipted)
      && (r.outcome == Refused(ReceiptMismatch) <==>
            name in d.history && !receipted && (id in d.active ==> here && legacy && source.active == 0 && gone))
      && (here && legacy && source.active == 0 && gone && name !in d.history ==>
            var first, second := NextFault(script), NextFault(Rest(script));
            var stop := if first != Completes then first else second;
            && r.disk == d.(active := if first == Completes && second in {Completes, RaisesAfter} then d.active - {id} else d.active,
                            history := if first in {Completes, RaisesAfter}
                                       then d.history[name := Entry(source, LegacyUnknown, now, Some(state), None)] else d.history)
            && r.outcome == if stop == Completes then Applied else Interrupted(if stop == Dies then Died else Raised))
  {
    hide ArchiveAndUnlink;
    var e := Entry(source, LegacyUnknown, now, Some(state), None);
    if QuarantinedAs(id, source) !in d.history {
      ArchiveByFaults(d, id, QuarantinedAs(id, source), e, script);
    } else {
      NeverThoseAnswers(d, id, QuarantinedAs(id, source), e, script);
    }
  }

  lemma NeverThoseAnswers(d: Disk, id: nat, name: HistoryName, e: Entry, script: Script)
    ensures
      var out := ArchiveAndUnlink(d, id, name, e, script).outcome;
      out == Applied || out.Interrupted? || out == Refused(ReadbackFailed)
  {
  }

  // ---- Repetition ----------------------------------------------------------------------------

  /** The retirement that a plan asks for has happened, and nothing else has. */
  ghost predicate RetiredExactly(before: Disk, after: Disk, plan: Plan, p: Planned) {
    var name := RetiredAs(p.id, p.decision, plan);
    && after.active == before.active - {p.id} && after.retire == before.retire
    && name in after.history && Receipt(after.history[name], plan, p) && after.history[name].state == Some(Expected(p.decision))
    && after.history - {name} == before.history - {name}
  }

  /** A retirement interrupted anywhere is finished by applying the same plan again, and
      from then on applying it, whatever faults and probes it meets, changes nothing. */
  lemma RetirementConverges(d: Disk, plan: Plan, p: Planned, script: Script, now: Seconds, later: Seconds,
                            other: ProcessState, faults: Script, muchLater: Seconds)
    requires Retires(p.decision) && MayAct(d, p, Expected(p.decision), None)
    requires RetiredAs(p.id, p.decision, plan) !in d.history
    ensures
      var first := RetireOne(d, plan, p, Expected(p.decision), now, script).disk;
      var again := RetireOne(first, plan, p, Expected(p.decision), later, []);
      && (again.outcome == Applied || again.outcome == AlreadyComplete)
      && RetiredExactly(d, again.disk, plan, p)
      && RetireOne(again.disk, plan, p, other, muchLater, faults).disk == again.disk
  {
  }

  /** A retirement that succeeds at once ends in the same place. */
  lemma CleanRetirement(d: Disk, plan: Plan, p: Planned, script: Script, now: Seconds)
    requires Retires(p.decision) && MayAct(d, p, Expected(p.decision), None)
    requires RetiredAs(p.id, p.decision, plan) !in d.history
    requires RetireOne(d, plan, p, Expected(p.decision), now, script).outcome == Applied
    ensures RetiredExactly(d, RetireOne(d, plan, p, Expected(p.decision), now, script).disk, plan, p)
  {
  }

  lemma ArchiveByFaults(d: Disk, id: nat, name: HistoryName, e: Entry, script: Script)
    requires name !in d.history
    ensures
      var r := ArchiveAndUnlink(d, id, name, e, script);
      var first, second := NextFault(script), NextFault(Rest(script));
      var stop := if first != Completes then first else second;
      && r.disk == d.(active := if first == Completes && second in {Completes, RaisesAfter} then d.active - {id} else d.active,
                      history := if first in {Completes, RaisesAfter} then d.history[name := e] else d.history)
      && r.outcome == (if stop == Completes then Applied else Interrupted(if stop == Dies then Died else Raised))
      && (first == Completes ==> r.rest == Rest(Rest(script)))
  {
  }

  /** A retirement step by step: a first fault decides whether there is a receipt, a second
      one whether the lease is gone. */
  lemma RetirementByFaults(d: Disk, plan: Plan, p: Planned, now: Seconds, script: Script)
    requires Retires(p.decision) && MayAct(d, p, Expected(p.decision), None)
    requires RetiredAs(p.id, p.decision, plan) !in d.history
    ensures
      var r := RetireOne(d, plan, p, Expected(p.decision), now, script);
      var name := RetiredAs(p.id, p.decision, plan);
      var first, second := NextFault(script), NextFault(Rest(script));
      && (name in r.disk.history <==> first in {Completes, RaisesAfter})
      && (name in r.disk.history ==>
            r.disk.history[name] == Entry(p.lease, ByDecision(p.decision), now,
                                          Some(if p.decision == RetireOrphan then Missing else Mismatch), Some(plan)))
      && (p.id !in r.disk.active <==> first == Completes && second in {Completes, RaisesAfter})
      && var stop := if first != Completes then first else second;
         r.outcome == if stop == Completes then Applied else Interrupted(if stop == Dies then Died else Raised)
  {
  }

  /** A close request is one step: written or not, and reported as what it was. */
  lemma CloseRequestByFaults(d: Disk, p: Planned, now: Seconds, script: Script)
    requires p.decision == RequestCloseObsolete && MayAct(d, p, Same, Some(p.lease.ancestry)) && p.ancestry == AncestrySame
    ensures
      var r := CloseOne(d, p, Same, Some(p.lease.ancestry), now, script);
      if p.id in d.retire then
        && r.disk == d
        && r.outcome == if d.retire[p.id].id == p.id && d.retire[p.id].generation == p.lease.generation
                        then AlreadyComplete else Refused(MarkerMismatch)
      else
        && r.disk == d.(retire := r.disk.retire)
        && r.disk.retire == (if NextFault(script) in {Completes, RaisesAfter}
                             then d.retire[p.id := Marker(p.id, p.lease.generation, now)] else d.retire)
        && r.outcome == match NextFault(script)
                        case Completes => Applied
                        case Dies => Interrupted(Died)
                        case _ => Interrupted(Raised)
  {
  }

  /** A refusal is true, and leaves everything as it was. */
  lemma RefusalIsTrue(d: Disk, plan: Plan, p: Planned, state: ProcessState, observed: Option<seq<nat>>, now: Seconds,
                      script: Script)
    requires IsActionable(p.decision)
    ensures
      var r := if Retires(p.decision) then RetireOne(d, plan, p, state, now, script)
               else CloseOne(d, p, state, observed, now, script);
      var held := p.id in d.active && d.active[p.id] == p.lease;
      && (r.outcome.Refused? && r.outcome.why != ReadbackFailed ==> r.disk == d)
      && (r.outcome == Refused(LeaseChanged) <==> p.id in d.active && d.active[p.id] != p.lease)
      && (r.outcome == Refused(OwnerMismatch) <==> held && p.owner != p.lease.owner)
      && (r.outcome == Refused(UnknownOwner) <==> held && p.owner == p.lease.owner == "unknown")
      && (r.outcome == Refused(ActiveRequest) <==>
            held && p.owner == p.lease.owner != "unknown" && p.decision == RequestCloseObsolete && p.lease.active > 0)
      && (r.outcome == Refused(ProcessChanged) <==>
            && held && p.owner == p.lease.owner != "unknown"
            && (match p.decision
                case RetireOrphan => state != Missing
                case RetirePidReused => state != Mismatch
                case _ => p.lease.active == 0 && state != Same))
      && (r.outcome == Refused(AncestryMoved) <==>
            && held && p.owner == p.lease.owner != "unknown" && p.decision == RequestCloseObsolete
            && p.lease.active == 0 && state == Same && (p.ancestry != AncestrySame || observed != Some(p.lease.ancestry)))
      && (r.outcome == Refused(RecordInvalid) <==>
            p.id !in d.active && (Retires(p.decision) ==> RetiredAs(p.id, p.decision, plan) !in d.history))
      && (p.id !in d.active && Retires(p.decision) && RetiredAs(p.id, p.decision, plan) in d.history ==>
            var e := d.history[RetiredAs(p.id, p.decision, plan)];
            r.outcome == if e.plan == Some(plan) && e.lease == p.lease && e.reason == ByDecision(p.decision)
                         then AlreadyComplete else Refused(ReceiptMismatch))
  {
  }

  /** A close request, once written, is not written again while the lease is unchanged. */
  lemma CloseConverges(d: Disk, p: Planned, script: Script, faults: Script, now: Seconds, later: Seconds)
    requires !Retires(p.decision) && MayAct(d, p, Same, Some(p.lease.ancestry)) && p.ancestry == AncestrySame && p.id !in d.retire
    ensures
      var first := CloseOne(d, p, Same, Some(p.lease.ancestry), now, script).disk;
      var again := CloseOne(first, p, Same, Some(p.lease.ancestry), later, []);
      && again.disk.active == d.active && again.disk.history == d.history
      && p.id in again.disk.retire && again.disk.retire[p.id].generation == p.lease.generation
      && again.disk.retire - {p.id} == d.retire - {p.id}
      && CloseOne(again.disk, p, Same, Some(p.lease.ancestry), later, faults) == Result(again.disk, AlreadyComplete, faults)
  {
  }

  /** A quarantine that stopped, wherever and however, with its receipt written and its
      lease still there can be finished exactly when the probe still says what the receipt
      recorded: had the process gone from missing to reused in the meantime, every retry
      is refused. */
  lemma QuarantineRetriesIffSameProbe(d: Disk, id: nat, source: Lease, state: ProcessState, now: Seconds, script: Script,
                                      retry: ProcessState, later: Seconds)
    requires id in d.active && d.active[id] == source && source.owner == "unknown" && source.principal.None? && source.active == 0
    requires QuarantinedAs(id, source) !in d.history
    requires (state == Missing || state == Mismatch) && (retry == Missing || retry == Mismatch)
    requires id in Quarantine(d, id, source, state, now, script).disk.active
    requires QuarantinedAs(id, source) in Quarantine(d, id, source, state, now, script).disk.history
    ensures
      var halfway := Quarantine(d, id, source, state, now, script).disk;
      var again := Quarantine(halfway, id, source, retry, later, []);
      && (again.outcome == Applied <==> retry == state)
      && (again.outcome == Applied <==> id !in again.disk.active)
      && (retry != state ==> forall faults :: Quarantine(halfway, id, source, retry, later, faults)
                                           == Result(halfway, Refused(ReadbackFailed), faults))
  {
    var halfway := Quarantine(d, id, source, state, now, script).disk;
    assert halfway.active[id] == source && halfway.history[QuarantinedAs(id, source)].state == Some(state);
  }

  /** It can stop there: a death between the two steps. */
  lemma QuarantineCanStopHalfway(d: Disk, id: nat, source: Lease, state: ProcessState, now: Seconds)
    requires id in d.active && d.active[id] == source && source.owner == "unknown" && source.principal.None? && source.active == 0
    requires QuarantinedAs(id, source) !in d.history && (state == Missing || state == Mismatch)
    ensures
      var halfway := Quarantine(d, id, source, state, now, [Completes, Dies]).disk;
      id in halfway.active && QuarantinedAs(id, source) in halfway.history
  {
    var script: Script := [Completes, Dies];
    assert Rest(script) == [Dies];
  }

  // ---- Plans -----------------------------------------------------------------------------------

  /** How many of the leases belong to this owner. */
  function OwnerCount(leases: seq<Lease>, owner: string): nat {
    if leases == [] then 0
    else OwnerCount(leases[..|leases| - 1], owner) + if leases[|leases| - 1].owner == owner then 1 else 0
  }

  function Get<K, V>(m: map<K, V>, k: K): Option<V> { if k in m then Some(m[k]) else None }

  /** What the plan says of one lease; the process is probed only under a budget. */
  function PlannedFor(leases: seq<Lease>, lease: Lease, budgets: map<string, Budget>, state: ProcessState,
                      observed: Option<seq<nat>>, marker: bool, current: Option<nat>, now: Seconds): Planned {
    var budget := Get(budgets, lease.owner);
    Planned(lease.id, lease.owner, if budget.None? then NotApplicable else Ancestry(lease, state, observed),
            Decide(lease, budget, state, observed, OwnerCount(leases, lease.owner), marker, current, now), lease)
  }

  /** What was planned can be applied: while nothing has changed since the plan, the one
      effect that it holds for the target is accepted and, uninterrupted, completed. */
  lemma PlannedEffectIsAccepted(d: Disk, plan: Plan, target: Option<nat>, i: nat, leases: seq<Lease>, lease: Lease,
                                budgets: map<string, Budget>,
                                state: ProcessState, observed: Option<seq<nat>>, marker: bool, current: Option<nat>, now: Seconds)
    requires OnlyEligible(plan.decisions, target, i)
    requires plan.decisions[i] == PlannedFor(leases, lease, budgets, state, observed, marker, current, plan.created)
    requires lease.id in d.active && d.active[lease.id] == lease && lease.owner != "unknown"
    requires lease.id in d.retire ==> d.retire[lease.id].id == lease.id && d.retire[lease.id].generation == lease.generation
    requires forall decision :: RetiredAs(lease.id, decision, plan) !in d.history
    ensures
      var r := Apply(d, plan, target, state, observed, now, []);
      if plan.decisions[i].decision == RequestCloseObsolete then
        && r.outcome == (if lease.id in d.retire then AlreadyComplete else Applied)
        && r.disk == d.(retire := r.disk.retire) && r.disk.retire - {lease.id} == d.retire - {lease.id}
        && lease.id in r.disk.retire && r.disk.retire[lease.id].generation == lease.generation
      else r.outcome == Applied && RetiredExactly(d, r.disk, plan, plan.decisions[i])
  {
    ChosenAreEligible(plan.decisions, target);
    assert Chosen(plan.decisions, target) == [plan.decisions[i]];
  }

  function OwnedBy(leases: seq<Lease>, owner: string): set<nat> { set i: nat | i < |leases| && leases[i].owner == owner }

  lemma {:induction false} OwnerCountIsExact(leases: seq<Lease>, owner: string)
    ensures OwnerCount(leases, owner) == |OwnedBy(leases, owner)|
  {
    if leases != [] {
      var n: nat := |leases| - 1;
      var front := OwnedBy(leases[..n], owner);
      OwnerCountIsExact(leases[..n], owner);
      assert OwnedBy(leases, owner) == front + if leases[n].owner == owner then {n} else {};
    }
  }

  /** What a plan says of a lease: its decision under its own owner's budget, counting that
      owner's leases, and its ancestry only where the process was found to be the same. */
  lemma PlanIsExact(leases: seq<Lease>, lease: Lease, budgets: map<string, Budget>, state: ProcessState,
                    observed: Option<seq<nat>>, marker: bool, current: Option<nat>, now: Seconds)
    ensures
      var p := PlannedFor(leases, lease, budgets, state, observed, marker, current, now);
      && p.id == lease.id && p.owner == lease.owner && p.lease == lease
      && (lease.owner !in budgets <==> p.decision == KeepPolicyMissing)
      && (lease.owner in budgets ==>
            && (p.decision == ReviewExcessProcesses ==> |OwnedBy(leases, lease.owner)| > budgets[lease.owner].maxProcesses)
            && (p.decision == KeepWithinBudget ==> |OwnedBy(leases, lease.owner)| <= budgets[lease.owner].maxProcesses))
      && (p.ancestry == NotApplicable <==> lease.owner !in budgets || state != Same)
      && (p.ancestry == AncestrySame <==> lease.owner in budgets && state == Same && observed == Some(lease.ancestry))
      && (p.ancestry == AncestryUnknown <==> lease.owner in budgets && state == Same && observed.None?)
  {
    OwnerCountIsExact(leases, lease.owner);
    var budget := Get(budgets, lease.owner);
    DecisionIsExact(lease, budget, state, observed, OwnerCount(leases, lease.owner), marker, current, now);
  }
}
