// The execution-generation root as the files it updates step by step.  Every
// method performs single durable writes and is proved against ActivationJournal.

module ActivationRoot {
  import opened Common
  import opened ActivationJournal
  import opened ActivationSafety

  class GenerationRoot {
    var current: Option<Gen>
    var previous: Option<Gen>
    var state: Option<StateFile>
    var journal: Option<Journal>
    var drain: map<Gen, Gen>
    var receipts: seq<(Operation, Gen)>
    /** Release trees are immutable, so verification verdicts are too. */
    const verified: set<Gen>
    /** The faults that the coming durable steps will meet. */
    var script: Script

    constructor (d: Root, faults: Script)
      ensures Disk() == d && script == faults
    {
      current, previous, state, journal := d.current, d.previous, d.state, d.journal;
      drain, receipts, verified, script := d.drain, d.receipts, d.verified, faults;
    }

    function Disk(): Root
      reads this
    {
      Root(current, previous, state, journal, drain, receipts, verified)
    }

    /** One rename, unlink or link, with the fault that the script holds for it. */
    method Issue(w: Write) returns (step: Step)
      modifies this
      ensures Attempt(old(Disk()), w, old(script)) == Exec(Disk(), step, script)
    {
      if Refused(Disk(), w) { return Raised; }
      var fault := NextFault(script);
      script := Rest(script);
      if fault == RaisesBefore { return Raised; }
      if fault == Dies { return Died; }
      match w {
        case SetCurrent(g, _) => current := g;
        case SetPrevious(g, _) => previous := g;
        case SetState(s) => state := s;
        case SetJournal(j) => journal := j;
        case MarkDrain(g, superseder) => drain := drain[g := superseder];
        case AddReceipt(op, g) => receipts := receipts + [(op, g)];
      }
      step := if fault == RaisesAfter then Raised else Done;
    }

    method MoveForward(j: Journal) returns (step: Step)
      modifies this
      ensures Execute(old(Disk()), ForwardWrites(j), old(script)) == Exec(Disk(), step, script)
    {
      ghost var ws := ForwardWrites(j);
      ExecuteThree(Disk(), ws[0], ws[1], ws[2], script);
      step := Issue(SetCurrent(Some(j.newCurrent), true));
      if step != Done { return; }
      step := Issue(SetPrevious(j.newPrevious, true));
      if step != Done { return; }
      step := Issue(SetState(Some(NewState(j))));
    }

    method Restore(j: Journal) returns (step: Step)
      modifies this
      ensures Execute(old(Disk()), RestoreWrites(j), old(script)) == Exec(Disk(), step, script)
    {
      ghost var ws := RestoreWrites(j);
      ExecuteThree(Disk(), ws[0], ws[1], ws[2], script);
      step := Issue(SetCurrent(j.oldCurrent, j.operation != BootstrapAdopt));
      if step != Done { return; }
      step := Issue(SetPrevious(j.oldPrevious, j.operation != BootstrapAdopt));
      if step != Done { return; }
      step := Issue(SetState(RestoredState(j)));
    }

    /** The unlink may raise; a failing fsync after it is only reported. */
    method RemovePendingJournal() returns (step: Step, verifiedRemoval: bool)
      modifies this
      ensures RemoveJournal(old(Disk()), old(script)) == Exec(Disk(), step, script)
      ensures verifiedRemoval == RemovalVerified(old(script))
    {
      verifiedRemoval := NextFault(script) != RaisesAfter;
      step := Issue(SetJournal(None));
      if !verifiedRemoval { step := Done; }
    }

    /** Drain marker, receipt, readback, journal removal. */
    method Finish(j: Journal) returns (step: Step, verifiedRemoval: bool)
      modifies this
      ensures FinishRun(old(Disk()), j, old(script)) == Exec(Disk(), step, script)
      ensures step == Done ==> verifiedRemoval == FinishRemovalVerified(old(Disk()), j, old(script))
    {
      verifiedRemoval := false;
      ghost var d, faults := Disk(), script;
      var target := DrainTarget(j);
      if target.Some? && target.value in drain && drain[target.value] != j.newCurrent { return Raised, false; }
      if target.Some? && target.value !in verified { return Raised, false; }
      ghost var ws := FinishWrites(d, j);
      if target.Some? && target.value !in drain {
        step := Issue(MarkDrain(target.value, j.newCurrent));
        if step != Done { return; }
        ws := ws[1..];
      }
      assert Execute(d, FinishWrites(d, j), faults) == Execute(Disk(), ws, script);
      var readback := ReadWithoutPending(Disk());
      if readback.ReadRaises? { return Raised, false; }
      ExecuteSingle(Disk(), AddReceipt(j.operation, j.newCurrent), script);
      step := Issue(AddReceipt(j.operation, j.newCurrent));
      if step != Done { return; }
      if !readback.ReadActive? { return Raised, false; }
      step, verifiedRemoval := RemovePendingJournal();
    }

    method RecoverPending() returns (r: Recovery)
      modifies this
      ensures RecoverRun(old(Disk()), old(script)) == Recovered(Disk(), r, script)
    {
      if journal == None { return NothingPending; }
      var j := journal.value;
      if j.operation != BootstrapAdopt && !PointersVerify(Disk()) { return RecoveryRaised; }
      if Committed(j, Disk()) {
        var step, removal := Finish(j);
        return match step case Done => Finalized(removal) case Raised => RecoveryRaised case Died => RecoveryDied;
      }
      if !Allowed(j, Pointers(Disk())) { return RecoveryRaised; }
      var step := Restore(j);
      if step == Raised { return RecoveryRaised; }
      if step == Died { return RecoveryDied; }
      var removal;
      step, removal := RemovePendingJournal();
      r := match step case Done => BeforeMapRestored(removal) case Raised => RecoveryRaised case Died => RecoveryDied;
    }

    /** Journal, move the map, and either finish or put the before-map back.  What the
        restore raises is swallowed; the journal then stays and recovery takes over. */
    method Commit(j: Journal) returns (outcome: Outcome)
      modifies this
      ensures Transact(old(Disk()), j, old(script)) == Run(Disk(), outcome, script)
    {
      var step := Issue(SetJournal(Some(j)));
      if step == Raised { return FailedRestoring; }
      if step == Died { return ProcessDied; }
      step := MoveForward(j);
      if step == Died { return ProcessDied; }
      if step == Raised {
        ghost var d, faults := Disk(), script;
        ExecuteAppend(d, RestoreWrites(j), [SetJournal(None)], faults);
        step := Restore(j);
        ExecuteSingle(Disk(), SetJournal(None), script);
        if step == Done { step := Issue(SetJournal(None)); }
        return if step == Died then ProcessDied else FailedRestoring;
      }
      var removal;
      step, removal := Finish(j);
      outcome := match step case Done => Returned(removal) case Raised => PostActionsPending case Died => ProcessDied;
    }

    method ActivateUnderLock(g: Gen, op: Operation, evidence: Evidence) returns (outcome: Outcome)
      modifies this
      ensures ActivateLocked(old(Disk()), g, op, evidence, old(script)) == Run(Disk(), outcome, script)
    {
      if g !in verified || !PointersVerify(Disk()) { return RefusedUnchanged; }
      var readback := ReadWithoutPending(Disk());
      if !readback.ReadActive? && !readback.ReadInactive? { return RefusedUnchanged; }
      if current == Some(g) { return Preserved; }
      if journal.Some? { return RefusedUnchanged; }
      outcome := Commit(ActivationJournalFor(Disk(), g, op, evidence));
    }

    method ActivateGeneration(g: Gen, evidence: Evidence, ready: bool) returns (outcome: Outcome)
      modifies this
      ensures Perform(old(Disk()), CallActivate(g, evidence, ready), old(script)) == Run(Disk(), outcome, script)
    {
      var r := RecoverPending();
      if StopsAtRecovery(r) { return RecoveredInstead(r); }
      if !ready { return RefusedUnchanged; }
      outcome := ActivateUnderLock(g, Activate, evidence);
    }

    method RollbackGeneration(ready: bool) returns (outcome: Outcome)
      modifies this
      ensures Perform(old(Disk()), CallRollback(ready), old(script)) == Run(Disk(), outcome, script)
    {
      var r := RecoverPending();
      if StopsAtRecovery(r) { return RecoveredInstead(r); }
      if !ready { return RefusedUnchanged; }
      if previous.None? { return RefusedUnchanged; }
      outcome := ActivateUnderLock(previous.value, Rollback, NotRequiredForRollback);
    }

    method BootstrapAdoptGeneration(c: Call) returns (outcome: Outcome)
      requires c.CallBootstrap?
      modifies this
      ensures Perform(old(Disk()), c, old(script)) == Run(Disk(), outcome, script)
    {
      var r := RecoverPending();
      if StopsAtRecovery(r) { return RecoveredInstead(r); }
      if !c.ready { return RefusedUnchanged; }
      if !BootstrapAdmissible(Disk(), c) { return RefusedUnchanged; }
      if journal.Some? { return RefusedUnchanged; }
      outcome := Commit(BootstrapJournal(Disk(), c));
    }
  }

  lemma ExecuteThree(d: Root, a: Write, b: Write, c: Write, script: Script)
    ensures Execute(d, [a, b, c], script) ==
            var e := Attempt(d, a, script);
            if e.step != Done then e else
            var f := Attempt(e.disk, b, e.script);
            if f.step != Done then f else Attempt(f.disk, c, f.script)
  {
    assert [a, b, c][1..] == [b, c] && [b, c][1..] == [c] && [c][1..] == [];
    var e := Attempt(d, a, script);
    var f := Attempt(e.disk, b, e.script);
    var g := Attempt(f.disk, c, f.script);
    assert Execute(g.disk, [], g.script) == Exec(g.disk, Done, g.script);
    assert Execute(f.disk, [c], f.script) == g;
    assert Execute(e.disk, [b, c], e.script) == if f.step == Done then g else f;
  }
}
