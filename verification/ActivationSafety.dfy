// What the pointer-map protocol guarantees: over every run of calls under every
// fault script, and exactly when recovery brings an interrupted map to rest.

module ActivationSafety {
  import opened Common
  import opened ActivationJournal

  // ---- Stopping points --------------------------------------------------------

  /** A disturbed list of writes leaves exactly the effect of one of its prefixes. */
  lemma {:induction false} ExecuteStopsAtAPrefix(d: Root, ws: seq<Write>, script: Script)
    ensures exists k :: 0 <= k <= |ws| && Execute(d, ws, script).disk == ApplyAll(d, ws[..k])
                        && (Execute(d, ws, script).step == Done ==> k == |ws|)
    decreases |ws|
  {
    if ws == [] {
      assert Execute(d, ws, script).disk == ApplyAll(d, ws[..0]);
    } else {
      var e := Attempt(d, ws[0], script);
      if e.step == Done {
        ExecuteStopsAtAPrefix(e.disk, ws[1..], e.script);
        var k :| 0 <= k <= |ws[1..]| && Execute(e.disk, ws[1..], e.script).disk == ApplyAll(e.disk, ws[1..][..k])
                 && (Execute(e.disk, ws[1..], e.script).step == Done ==> k == |ws[1..]|);
        assert ws[..k + 1][1..] == ws[1..][..k];
        assert ApplyAll(d, ws[..k + 1]) == ApplyAll(Apply(d, ws[0]), ws[..k + 1][1..]);
      } else if e.disk == d {
        assert Execute(d, ws, script).disk == ApplyAll(d, ws[..0]);
      } else {
        assert ws[..1][1..] == [];
        assert Execute(d, ws, script).disk == ApplyAll(d, ws[..1]);
      }
    }
  }

  lemma {:induction false} ApplyAllSnoc(d: Root, ws: seq<Write>, k: nat)
    requires k < |ws|
    ensures ApplyAll(d, ws[..k + 1]) == Apply(ApplyAll(d, ws[..k]), ws[k])
    decreases k
  {
    if k == 0 {
      assert ws[..0] == [] && ws[..1] == [ws[0]];
    } else {
      ApplyAllSnoc(Apply(d, ws[0]), ws[1..], k - 1);
      assert ws[..k + 1][1..] == ws[1..][..k] && ws[..k][1..] == ws[1..][..k - 1];
    }
  }

  lemma ThreeWrites(d: Root, ws: seq<Write>, script: Script)
    requires |ws| == 3
    ensures var d1 := Apply(d, ws[0]); var d2 := Apply(d1, ws[1]); var d3 := Apply(d2, ws[2]);
            var e := Execute(d, ws, script);
            && e.disk in {d, d1, d2, d3} && (e.step == Done ==> e.disk == d3)
  {
    ExecuteStopsAtAPrefix(d, ws, script);
    ApplyAllSnoc(d, ws, 0); ApplyAllSnoc(d, ws, 1); ApplyAllSnoc(d, ws, 2);
    assert ApplyAll(d, ws[..0]) == d;
  }

  /** The forward writes stop on an allowed map, and complete on the committed one. */
  lemma ForwardStops(j: Journal, d: Root, script: Script)
    requires InFlight(j, d) && Pointers(d) == BeforeMap(j) && Settled(BeforeMap(j), d.state)
    ensures var e := Execute(d, ForwardWrites(j), script);
            && InFlight(j, e.disk) && Allowed(j, Pointers(e.disk))
            && e.disk.drain == d.drain && e.disk.receipts == d.receipts && e.disk.verified == d.verified
            && (e.step == Done ==> Committed(j, e.disk))
  {
    ThreeWrites(d, ForwardWrites(j), script);
  }

  /** A restore stops in flight; completed, it has put the exact before-map back. */
  lemma RestoreStops(j: Journal, d: Root, script: Script)
    requires InFlight(j, d)
    ensures var e := Execute(d, RestoreWrites(j), script);
            && InFlight(j, e.disk)
            && e.disk.drain == d.drain && e.disk.receipts == d.receipts && e.disk.verified == d.verified
            && (e.step == Done ==> Pointers(e.disk) == BeforeMap(j) && e.disk.state == RestoredState(j))
            && (Pointers(d) in {BeforeMap(j), PartialMap(j)} ==> Allowed(j, Pointers(e.disk)))
  {
    ThreeWrites(d, RestoreWrites(j), script);
  }

  lemma {:induction false} ExecuteAppend(d: Root, ws: seq<Write>, vs: seq<Write>, script: Script)
    ensures var e := Execute(d, ws, script);
            Execute(d, ws + vs, script) == if e.step == Done then Execute(e.disk, vs, e.script) else e
    decreases |ws|
  {
    if ws == [] {
      assert ws + vs == vs;
    } else {
      var e := Attempt(d, ws[0], script);
      assert (ws + vs)[1..] == ws[1..] + vs;
      if e.step == Done { ExecuteAppend(e.disk, ws[1..], vs, e.script); }
    }
  }

  /** The marker and receipt writes of a finish change nothing else. */
  lemma FinishWritesStop(d: Root, j: Journal, script: Script)
    ensures var e := Execute(d, FinishWrites(d, j), script);
            && e.disk == d.(drain := e.disk.drain, receipts := e.disk.receipts)
            && (e.disk.receipts == d.receipts || e.disk.receipts == d.receipts + [(j.operation, j.newCurrent)])
            && (e.step == Done && !ReadWithoutPending(d).ReadRaises? ==>
                  e.disk.receipts == d.receipts + [(j.operation, j.newCurrent)])
            && (e.step == Done ==> DrainTarget(j).Some? ==> DrainTarget(j).value in e.disk.drain)
            && (forall g :: g in e.disk.drain && g !in d.drain ==> e.disk.drain[g] == j.newCurrent)
            && (forall g :: g in d.drain ==> g in e.disk.drain && e.disk.drain[g] == d.drain[g])
  {
    var ws := FinishWrites(d, j);
    ExecuteStopsAtAPrefix(d, ws, script);
    assert ApplyAll(d, ws[..0]) == d;
    if |ws| > 0 { ApplyAllSnoc(d, ws, 0); }
    if |ws| > 1 { ApplyAllSnoc(d, ws, 1); }
  }

  /** The last receipt is the commit's, and its drain marker names the new generation. */
  predicate Finished(j: Journal, d: Root) {
    && d.receipts != [] && d.receipts[|d.receipts| - 1] == (j.operation, j.newCurrent)
    && (DrainTarget(j).Some? ==> DrainTarget(j).value in d.drain && d.drain[DrainTarget(j).value] == j.newCurrent)
  }

  /** Finishing a commit never touches the pointer map or the state file; it drops
      the journal only after the receipt and the drain marker of the commit were written. */
  lemma FinishStops(d: Root, j: Journal, script: Script)
    ensures var e := FinishRun(d, j, script);
            && e.disk == d.(drain := e.disk.drain, receipts := e.disk.receipts, journal := e.disk.journal)
            && (e.disk.journal == d.journal || e.disk.journal == None)
            && (e.disk.receipts == d.receipts || e.disk.receipts == d.receipts + [(j.operation, j.newCurrent)])
            && (e.step == Done ==> e.disk.journal == None)
            && (d.journal.Some? && e.disk.journal == None ==>
                  e.disk.receipts == d.receipts + [(j.operation, j.newCurrent)] && Finished(j, e.disk))
            && (forall g :: g in d.drain ==> g in e.disk.drain && e.disk.drain[g] == d.drain[g])
  {
    FinishWritesStop(d, j, script);
    hide Execute, FinishWrites;
  }

  // ---- Every call, every run ----------------------------------------------------

  /** Before and after, an adoption or activation is either settled or in flight. */
  lemma TransactStaysValid(d: Root, j: Journal, script: Script)
    requires d.journal == None && WellFormed(j, d.verified)
    requires Pointers(d) == BeforeMap(j) && Settled(BeforeMap(j), d.state)
    ensures Valid(Transact(d, j, script).disk) && Transact(d, j, script).disk.verified == d.verified
  {
    hide Execute, ForwardWrites, RestoreWrites, FinishRun, FinishRemovalVerified;
    var w := Attempt(d, SetJournal(Some(j)), script);
    if w.step == Done {
      ForwardStops(j, w.disk, w.script);
      var f := Execute(w.disk, ForwardWrites(j), w.script);
      if f.step == Raised {
        RestoreStops(j, f.disk, f.script);
        ExecuteAppend(f.disk, RestoreWrites(j), [SetJournal(None)], f.script);
        var r := Execute(f.disk, RestoreWrites(j), f.script);
        if r.step == Done { ExecuteSingle(r.disk, SetJournal(None), r.script); }
      } else if f.step == Done {
        FinishStops(f.disk, j, f.script);
      }
    }
  }

  lemma ExecuteSingle(d: Root, w: Write, script: Script)
    ensures Execute(d, [w], script) == Attempt(d, w, script)
  {
    var e := Attempt(d, w, script);
    assert [w][1..] == [];
    assert Execute(e.disk, [], e.script) == Exec(e.disk, Done, e.script);
  }

  lemma FinishStaysValid(j: Journal, d: Root, script: Script)
    requires InFlight(j, d) && Committed(j, d)
    ensures var e := FinishRun(d, j, script);
            && Valid(e.disk) && e.disk.verified == d.verified && Pointers(e.disk) == Pointers(d)
            && (e.step == Done ==> e.disk.journal == None)
  {
    FinishStops(d, j, script);
    var e := FinishRun(d, j, script);
    if e.disk.journal.Some? {
      assert InFlight(j, e.disk);
    } else {
      assert Settled(Pointers(e.disk), e.disk.state);
    }
  }

  lemma RestoreStaysValid(j: Journal, d: Root, script: Script)
    requires InFlight(j, d)
    ensures var e := Execute(d, RestoreWrites(j), script);
            var r := RemoveJournal(e.disk, e.script);
            && Valid(e.disk) && e.disk.verified == d.verified
            && (e.step == Done ==> Valid(r.disk) && r.disk.verified == d.verified && Pointers(r.disk) == BeforeMap(j))
            && (e.step == Done && r.step == Done ==> r.disk.journal == None)
  {
    RestoreStops(j, d, script);
    var e := Execute(d, RestoreWrites(j), script);
    var r := RemoveJournal(e.disk, e.script);
    if e.step == Done && r.disk.journal.None? {
      assert Settled(Pointers(r.disk), r.disk.state);
    }
  }

  /** Recovery keeps the invariant whatever faults hit it, and settles what it ends. */
  lemma RecoverStaysValid(d: Root, script: Script)
    requires Valid(d)
    ensures var r := RecoverRun(d, script);
            && Valid(r.disk) && r.disk.verified == d.verified
            && (r.outcome.BeforeMapRestored? || r.outcome.Finalized? || r.outcome.NothingPending? ==>
                  r.disk.journal == None)
            && (r.outcome.BeforeMapRestored? ==> Pointers(r.disk) == BeforeMap(d.journal.value))
            && (r.outcome.Finalized? ==> Pointers(r.disk) == CommittedMap(d.journal.value))
  {
    if d.journal.Some? {
      var j := d.journal.value;
      if Committed(j, d) {
        FinishStaysValid(j, d, script);
      } else if Allowed(j, Pointers(d)) {
        RestoreStaysValid(j, d, script);
      }
    }
  }

  lemma PerformStaysValid(d: Root, c: Call, script: Script)
    requires Valid(d)
    ensures Valid(Perform(d, c, script).disk) && Perform(d, c, script).disk.verified == d.verified
  {
    RecoverStaysValid(d, script);
    var r := RecoverRun(d, script);
    if !StopsAtRecovery(r.outcome) && c.ready {
      match c
      case CallActivate(g, evidence, _) => LockedStaysValid(r.disk, g, Activate, evidence, r.script);
      case CallRollback(_) =>
        if r.disk.previous.Some? {
          LockedStaysValid(r.disk, r.disk.previous.value, Rollback, NotRequiredForRollback, r.script);
        }
      case CallBootstrap(_, _, _, _, _, _) =>
        if BootstrapAdmissible(r.disk, c) && r.disk.journal.None? {
          TransactStaysValid(r.disk, BootstrapJournal(r.disk, c), r.script);
        }
    }
  }

  lemma LockedStaysValid(d: Root, g: Gen, op: Operation, evidence: Evidence, script: Script)
    requires Valid(d) && d.journal.None? && op in {Activate, Rollback}
    ensures Valid(ActivateLocked(d, g, op, evidence, script).disk)
    ensures ActivateLocked(d, g, op, evidence, script).disk.verified == d.verified
  {
    var run := ActivateLocked(d, g, op, evidence, script);
    if g in d.verified && PointersVerify(d) && d.current != Some(g) {
      TransactStaysValid(d, ActivationJournalFor(d, g, op, evidence), script);
    }
  }

  function RunCalls(d: Root, calls: seq<(Call, Script)>): Root
    decreases |calls|
  {
    if calls == [] then d else RunCalls(Perform(d, calls[0].0, calls[0].1).disk, calls[1..])
  }

  /** Safety over whole runs: any calls, each under any faults, from any root whose
      invariant holds, read back as interrupted, inactive, or one agreed generation. */
  lemma {:induction false} RunsNeverReadAMixture(d: Root, calls: seq<(Call, Script)>)
    requires Valid(d)
    ensures var e := RunCalls(d, calls);
            && Valid(e) && ReadActivation(e) != ReadMismatch
            && (ReadActivation(e).ReadInterrupted? <==> e.journal.Some?)
            && (e.journal.Some? ==>
                  Allowed(e.journal.value, Pointers(e)) || Pointers(e) == StrandedMap(e.journal.value))
    decreases |calls|
  {
    if calls != [] {
      PerformStaysValid(d, calls[0].0, calls[0].1);
      RunsNeverReadAMixture(Perform(d, calls[0].0, calls[0].1).disk, calls[1..]);
    }
  }

  // ---- Recovery, exactly ------------------------------------------------------------

  /** The two pending shapes an undisturbed recovery cannot bring to rest: a restore
      stopped half way from the complete map, and a commit whose drain marker is taken. */
  predicate Stuck(j: Journal, d: Root) {
    || (Pointers(d) == StrandedMap(j) && j.newPrevious != j.oldPrevious)
    || (Committed(j, d) && DrainConflict(d, j))
  }

  /** The exact before-map: pointers, and what a reader of the root is told. */
  predicate BackToBefore(j: Journal, before: Root, after: Root) {
    && after == before.(current := j.oldCurrent, previous := j.oldPrevious,
                        state := RestoredState(j), journal := None)
    && Settled(Pointers(after), after.state)
  }

  predicate FinalizedMap(j: Journal, before: Root, after: Root) {
    && Pointers(after) == CommittedMap(j) && after.state == Some(NewState(j)) && after.journal == None
    && after.receipts == before.receipts + [(j.operation, j.newCurrent)]
    && (DrainTarget(j).Some? ==>
          DrainTarget(j).value in after.drain && after.drain[DrainTarget(j).value] == j.newCurrent)
  }

  predicate Unrefused(d: Root, ws: seq<Write>) {
    forall i :: 0 <= i < |ws| ==> !Refused(d, ws[i])
  }

  /** Undisturbed writes all take effect. */
  lemma {:induction false} CleanExecute(d: Root, ws: seq<Write>, script: Script)
    requires NoFaults(script) && Unrefused(d, ws)
    ensures var e := Execute(d, ws, script);
            e.step == Done && e.disk == ApplyAll(d, ws) && NoFaults(e.script)
    decreases |ws|
  {
    if ws != [] {
      assert !Refused(d, ws[0]);
      CleanExecute(Apply(d, ws[0]), ws[1..], Rest(script));
    }
  }

  lemma CleanRestore(j: Journal, d: Root, script: Script)
    requires InFlight(j, d) && NoFaults(script)
    ensures var e := Execute(d, RestoreWrites(j), script);
            && e.step == Done && NoFaults(e.script)
            && e.disk == d.(current := j.oldCurrent, previous := j.oldPrevious, state := RestoredState(j))
  {
    var ws := RestoreWrites(j);
    CleanExecute(d, ws, script);
    ApplyAllSnoc(d, ws, 0); ApplyAllSnoc(d, ws, 1); ApplyAllSnoc(d, ws, 2);
    assert ws[..3] == ws && ApplyAll(d, ws[..0]) == d;
  }

  function Marked(d: Root, j: Journal): map<Gen, Gen> {
    if DrainTarget(j).Some? then d.drain[DrainTarget(j).value := j.newCurrent] else d.drain
  }

  lemma CleanFinish(j: Journal, d: Root, script: Script)
    requires InFlight(j, d) && Committed(j, d) && !DrainConflict(d, j) && NoFaults(script)
    ensures FinishRun(d, j, script).step == Done && FinalizedMap(j, d, FinishRun(d, j, script).disk)
    ensures FinishRun(d, j, script).disk
         == d.(drain := Marked(d, j), receipts := d.receipts + [(j.operation, j.newCurrent)], journal := None)
    ensures FinishRemovalVerified(d, j, script)
  {
    var ws := FinishWrites(d, j);
    CleanExecute(d, ws, script);
    assert ReadWithoutPending(d).ReadActive?;
    ApplyAllSnoc(d, ws, 0);
    if |ws| == 2 { ApplyAllSnoc(d, ws, 1); }
    assert ws[..|ws|] == ws && ApplyAll(d, ws[..0]) == d;
  }

  /** Undisturbed recovery of any in-flight root: the committed map is finalized, a
      stuck root is left untouched, and everything else returns to the before-map. */
  lemma UndisturbedRecovery(j: Journal, d: Root, script: Script)
    requires InFlight(j, d) && NoFaults(script)
    ensures var r := RecoverRun(d, script);
            if Stuck(j, d) then r.outcome == RecoveryRaised && r.disk == d
            else if Committed(j, d) then r.outcome == Finalized(true) && FinalizedMap(j, d, r.disk)
            else r.outcome == BeforeMapRestored(true) && BackToBefore(j, d, r.disk)
  {
    if Committed(j, d) {
      if !DrainConflict(d, j) { CleanFinish(j, d, script); }
    } else if Allowed(j, Pointers(d)) {
      CleanRestore(j, d, script);
    }
  }

  /** Recovery rests an interrupted root if and only if it is not stuck. */
  lemma RecoveryRestsIffNotStuck(j: Journal, d: Root)
    requires InFlight(j, d)
    ensures RecoverRun(d, []).disk.journal == None <==> !Stuck(j, d)
  {
    UndisturbedRecovery(j, d, []);
  }

  /** Once the new state file matches, no recovery, disturbed or not, moves a pointer. */
  lemma CommittedMapNeverMovesBack(d: Root, script: Script)
    requires d.journal.Some? && Committed(d.journal.value, d)
    ensures Pointers(RecoverRun(d, script).disk) == CommittedMap(d.journal.value)
    ensures RecoverRun(d, script).disk.state == d.state
  {
    FinishStops(d, d.journal.value, script);
  }

  /** Any map outside the three allowed ones is refused with nothing changed. */
  lemma ForeignMapRefusedUntouched(d: Root, script: Script)
    requires d.journal.Some? && !Allowed(d.journal.value, Pointers(d))
    ensures RecoverRun(d, script) == Recovered(d, RecoveryRaised, script)
  {
  }

  // ---- One fault -----------------------------------------------------------------------

  /** Once the one fault of a script has struck, nothing disturbs the rest. */
  lemma {:induction false} AfterTheFault(d: Root, ws: seq<Write>, script: Script)
    requires AtMostOneFault(script) && Unrefused(d, ws)
    ensures var e := Execute(d, ws, script);
            AtMostOneFault(e.script) && (e.step != Done ==> NoFaults(e.script))
    decreases |ws|
  {
    if ws != [] {
      assert !Refused(d, ws[0]);
      var e := Attempt(d, ws[0], script);
      if e.step == Done { AfterTheFault(e.disk, ws[1..], e.script); }
    }
  }

  /** `j` is the journal that a call on `d` writes. */
  predicate JournalOf(d: Root, j: Journal) {
    && WellFormed(j, d.verified) && Pointers(d) == BeforeMap(j) && Settled(Pointers(d), d.state)
    && if j.operation == BootstrapAdopt then d.state == j.oldState
       else d.current.Some? ==> j.oldEvidence == d.state.value.evidence
  }

  predicate SameReading(before: Root, after: Root) {
    Pointers(after) == Pointers(before) && ReadActivation(after) == ReadActivation(before)
  }

  predicate Unmoved(d: Root, j: Journal, after: Root) {
    SameReading(d, after) && (after.state == d.state || after.state == RestoredState(j))
  }

  /** The new map with its state file: finalized, receipt and marker included, or kept
      interrupted only by an occupied drain marker. */
  predicate AtNewMap(j: Journal, after: Root) {
    && Pointers(after) == CommittedMap(j) && after.state == Some(NewState(j))
    && ((after.journal == None && Finished(j, after)) || (after.journal == Some(j) && DrainConflict(after, j)))
  }

  lemma OneFaultKeepsTheMapAllowed(d: Root, j: Journal, script: Script)
    requires d.journal == None && JournalOf(d, j) && AtMostOneFault(script)
    ensures var e := Transact(d, j, script).disk;
            if e.journal == None then Unmoved(d, j, e) || AtNewMap(j, e)
            else InFlight(j, e) && Allowed(j, Pointers(e)) && e.verified == d.verified
  {
    hide Execute, FinishRun, FinishRemovalVerified;
    var w := Attempt(d, SetJournal(Some(j)), script);
    assert AtMostOneFault(w.script);
    if w.step == Done {
      ForwardStops(j, w.disk, w.script);
      var f := Execute(w.disk, ForwardWrites(j), w.script);
      AfterTheFault(w.disk, ForwardWrites(j), w.script);
      if f.step == Raised {
        CleanRestore(j, f.disk, f.script);
        ExecuteAppend(f.disk, RestoreWrites(j), [SetJournal(None)], f.script);
        var r := Execute(f.disk, RestoreWrites(j), f.script);
        ExecuteSingle(r.disk, SetJournal(None), r.script);
      } else if f.step == Done {
        FinishStops(f.disk, j, f.script);
      }
    }
  }

  /** The pointer map that a call asks for. */
  function Requested(d: Root, c: Call): PointerMap {
    match c
    case CallActivate(g, _, _) => (Some(g), d.current)
    case CallRollback(_) => (d.previous, d.current)
    case CallBootstrap(g, back, _, _, _, _) => (Some(g), Some(back))
  }

  lemma TransactOneFault(d: Root, j: Journal, script: Script, clean: Script)
    requires d.journal == None && JournalOf(d, j) && AtMostOneFault(script) && NoFaults(clean)
    ensures var after := RecoverRun(Transact(d, j, script).disk, clean).disk;
            Unmoved(d, j, after) || AtNewMap(j, after)
  {
    OneFaultKeepsTheMapAllowed(d, j, script);
    var e := Transact(d, j, script).disk;
    if e.journal.Some? { UndisturbedRecovery(j, e, clean); }
  }

  /** The transaction that a call asks for, if it asks for an admissible one. */
  function Asked(d: Root, c: Call): Option<Journal> {
    match c
    case CallActivate(g, evidence, _) => Some(ActivationJournalFor(d, g, Activate, evidence))
    case CallRollback(_) =>
      if d.previous.None? then None
      else Some(ActivationJournalFor(d, d.previous.value, Rollback, NotRequiredForRollback))
    case CallBootstrap(_, _, _, _, _, _) => if BootstrapAdmissible(d, c) then Some(BootstrapJournal(d, c)) else None
  }

  function OperationOf(c: Call): Operation {
    match c case CallActivate(_, _, _) => Activate case CallRollback(_) => Rollback case _ => BootstrapAdopt
  }

  /** The tenancy evidence that a reader is told after a call has committed. */
  function EvidenceOf(c: Call): Evidence {
    match c case CallRollback(_) => NotRequiredForRollback case _ => c.evidence
  }

  /** Some generation stops being current and its drain marker names another superseder. */
  predicate MarkerTaken(d: Root, c: Call, leaving: Option<Gen>, superseder: Gen) {
    !c.CallBootstrap? && leaving.Some? && leaving.value in d.drain && d.drain[leaving.value] != superseder
  }

  /** The requested map is there in full: a reader is told the requested generation, the one
      to fall back to and the call's evidence, unless the drain marker was taken. */
  predicate AtRequested(d: Root, c: Call, after: Root) {
    var (to, back) := Requested(d, c);
    && to.Some? && after.current == to && after.previous == back
    && after.state == Some(StateFile(to.value, back, OperationOf(c), EvidenceOf(c)))
    && if after.journal.Some? then MarkerTaken(after, c, d.current, to.value)
       else
         && ReadActivation(after) == ReadActive(to.value, back, EvidenceOf(c))
         && after.receipts != [] && after.receipts[|after.receipts| - 1] == (OperationOf(c), to.value)
         && (!c.CallBootstrap? && d.current.Some? ==>
               d.current.value in after.drain && after.drain[d.current.value] == to.value)
  }

  /** The exact before-map, told to readers as before.  Its state file is the old one, byte
      for byte, or a fresh record of a restore, which an adoption never writes. */
  predicate AtBefore(d: Root, c: Call, after: Root) {
    && SameReading(d, after)
    && (after.state == d.state
        || (!c.CallBootstrap? && d.current.None? && after.state == None)
        || (!c.CallBootstrap? && d.current.Some? && d.state.Some? &&
            after.state == Some(StateFile(d.current.value, d.previous, BeforeMapRestore, d.state.value.evidence))))
  }

  lemma UnmovedIsBefore(d: Root, c: Call, after: Root)
    requires Asked(d, c).Some? && JournalOf(d, Asked(d, c).value) && Unmoved(d, Asked(d, c).value, after)
    ensures AtBefore(d, c, after)
  {
  }

  lemma NewMapIsRequested(d: Root, c: Call, after: Root)
    requires Asked(d, c).Some? && WellFormed(Asked(d, c).value, d.verified) && after.verified == d.verified
    requires AtNewMap(Asked(d, c).value, after)
    ensures AtRequested(d, c, after)
  {
  }

  /** Atomicity: one exception or crash anywhere in a call, then an undisturbed
      recovery, leaves the exact before-map or all of what was requested. */
  lemma OneFaultAtomicity(d: Root, c: Call, script: Script, clean: Script)
    requires Valid(d) && d.journal == None && AtMostOneFault(script) && NoFaults(clean)
    ensures var after := RecoverRun(Perform(d, c, script).disk, clean).disk;
            AtBefore(d, c, after) || AtRequested(d, c, after)
  {
    hide AtNewMap, AtRequested, Unmoved;
    var after := RecoverRun(Perform(d, c, script).disk, clean).disk;
    PerformStaysValid(d, c, script);
    RecoverStaysValid(Perform(d, c, script).disk, clean);
    if Moves(d, c) {
      var j := Asked(d, c).value;
      MovesByTransaction(d, c, script);
      TransactOneFault(d, j, script, clean);
      if AtNewMap(j, after) { NewMapIsRequested(d, c, after); } else { UnmovedIsBefore(d, c, after); }
    } else {
      StaysPut(d, c, script);
    }
  }

  // ---- Single steps --------------------------------------------------------------------

  /** No checked pointer is ever moved to an unverified generation. */
  lemma UnverifiedIsRefused(d: Root, g: Gen, script: Script)
    requires g !in d.verified
    ensures Attempt(d, SetCurrent(Some(g), true), script) == Exec(d, Raised, script)
    ensures Attempt(d, SetPrevious(Some(g), true), script) == Exec(d, Raised, script)
  {
  }

  /** A journal whose unlink worked is gone and reported so, only a failing sync is noted. */
  lemma RemovalIsReported(d: Root, script: Script)
    ensures
      var e, f := RemoveJournal(d, script), NextFault(script);
      && e.disk == (if f == Completes || f == RaisesAfter then d.(journal := None) else d)
      && (e.step == Done <==> f == Completes || f == RaisesAfter) && (e.step == Died <==> f == Dies)
      && (RemovalVerified(script) <==> f != RaisesAfter)
  {
  }

  /** What a reader is told, exactly. */
  lemma ReadbackIsExact(d: Root)
    ensures
      var told := ReadActivation(d);
      var unverified := (d.current.Some? && d.current.value !in d.verified) || (d.previous.Some? && d.previous.value !in d.verified);
      && (told == ReadInterrupted <==> d.journal.Some?)
      && (told == ReadRaises <==> d.journal.None? && (unverified || (d.current.Some? && d.state.None?)))
      && (told == ReadInactive(d.previous) <==> d.journal.None? && !unverified && d.current.None?)
      && (told == ReadMismatch <==>
            && d.journal.None? && !unverified && d.current.Some? && d.state.Some?
            && (Some(d.state.value.current), d.state.value.previous) != Pointers(d))
      && (told.ReadActive? ==>
            && d.state.Some? && told == ReadActive(d.state.value.current, d.state.value.previous, d.state.value.evidence)
            && (Some(told.current), told.previous) == Pointers(d))
  {
  }

  predicate Deathless(script: Script) { Dies !in script }

  lemma {:induction false} DeathlessExecute(d: Root, ws: seq<Write>, script: Script)
    requires Deathless(script)
    ensures var e := Execute(d, ws, script); e.step != Died && Deathless(e.script)
    decreases |ws|
  {
    if ws != [] {
      var e := Attempt(d, ws[0], script);
      if e.step == Done { DeathlessExecute(e.disk, ws[1..], e.script); }
    }
  }

  /** A call is reported as a death only if there was one: whatever else happens, it raises. */
  lemma OnlyDeathsKill(d: Root, j: Journal, script: Script)
    requires Deathless(script)
    ensures Transact(d, j, script).outcome != ProcessDied
    ensures RecoverRun(d, script).outcome != RecoveryDied
  {
    hide Execute, ForwardWrites, RestoreWrites, FinishWrites, FinishRemovalVerified;
    var w := Attempt(d, SetJournal(Some(j)), script);
    var f := Execute(w.disk, ForwardWrites(j), w.script);
    DeathlessExecute(w.disk, ForwardWrites(j), w.script);
    DeathlessExecute(f.disk, RestoreWrites(j) + [SetJournal(None)], f.script);
    DeathlessExecute(f.disk, FinishWrites(f.disk, j), f.script);
    if d.journal.Some? {
      DeathlessExecute(d, RestoreWrites(d.journal.value), script);
      DeathlessExecute(d, FinishWrites(d, d.journal.value), script);
    }
  }

  // ---- What a call answers -----------------------------------------------------------

  /** A settled root accepts the call and moves. */
  predicate Moves(d: Root, c: Call) {
    && c.ready
    && match c
       case CallActivate(g, _, _) => PointersVerify(d) && g in d.verified && d.current != Some(g)
       case CallRollback(_) => PointersVerify(d) && d.previous.Some? && d.previous != d.current
       case CallBootstrap(g, back, current, previous, _, _) =>
         && Pointers(d) == (Some(current), Some(previous)) && {g, back} <= d.verified
         && g != back && {g, back} !! {current, previous}
  }

  lemma MovesByTransaction(d: Root, c: Call, script: Script)
    requires Valid(d) && d.journal == None && Moves(d, c)
    ensures Asked(d, c).Some? && JournalOf(d, Asked(d, c).value)
    ensures Perform(d, c, script) == Transact(d, Asked(d, c).value, script)
  {
    hide Transact;
    assert c.CallBootstrap? ==> c.generation in {c.generation, c.rollback} && c.rollback in {c.generation, c.rollback};
  }

  /** What is already current and verified is preserved; everything else is refused. */
  lemma StaysPut(d: Root, c: Call, script: Script)
    requires Valid(d) && d.journal == None && !Moves(d, c)
    ensures Perform(d, c, script) ==
            Run(d, if c.ready && !c.CallBootstrap? && PointersVerify(d) && d.current.Some?
                      && d.current == (if c.CallActivate? then Some(c.generation) else d.previous)
                   then Preserved else RefusedUnchanged, script)
  {
  }

  /** An undisturbed call on a settled root: the whole new root, and what its readers are
      told, in terms of the call and the old root alone. */
  lemma UndisturbedCall(d: Root, c: Call)
    requires Valid(d) && d.journal == None && Moves(d, c)
    ensures
      var r := Perform(d, c, []);
      var (to, back) := Requested(d, c);
      var moved := d.(current := to, previous := back, journal := r.disk.journal,
                      state := Some(StateFile(to.value, back, OperationOf(c), EvidenceOf(c))));
      && to.Some?
      && if MarkerTaken(d, c, d.current, to.value)
         then r.outcome == PostActionsPending && r.disk == moved && ReadActivation(r.disk) == ReadInterrupted
         else && r.outcome == Returned(true) && ReadActivation(r.disk) == ReadActive(to.value, back, EvidenceOf(c))
              && r.disk == moved.(receipts := d.receipts + [(OperationOf(c), to.value)],
                                  drain := if c.CallBootstrap? || d.current.None? then d.drain
                                           else d.drain[d.current.value := to.value])
  {
    hide Transact;
    MovesByTransaction(d, c, []);
    UndisturbedTransact(d, Asked(d, c).value);
  }

  lemma NoFaultsLeft(d: Root)
    ensures RecoverRun(d, []).script == []
  {
    if d.journal.Some? {
      NoMoreFaults(d, FinishWrites(d, d.journal.value));
      NoMoreFaults(d, RestoreWrites(d.journal.value));
    }
  }

  /** A call on an interrupted root recovers first: it goes on only from the before-map. */
  lemma UndisturbedCallRecoversFirst(j: Journal, d: Root, c: Call)
    requires InFlight(j, d)
    ensures
      var r := Perform(d, c, []);
      if Stuck(j, d) then r.outcome == RecoveredInstead(RecoveryRaised) && r.disk == d
      else if Committed(j, d) then r.outcome == RecoveredInstead(Finalized(true)) && FinalizedMap(j, d, r.disk)
      else exists settled :: BackToBefore(j, d, settled) && r == Perform(settled, c, [])
  {
    hide ActivateLocked, Transact;
    UndisturbedRecovery(j, d, []);
    var r := RecoverRun(d, []);
    if r.outcome.BeforeMapRestored? {
      assert Recovered(r.disk, NothingPending, []) == RecoverRun(r.disk, []);
      NoFaultsLeft(d);
      assert Perform(d, c, []) == Perform(r.disk, c, []);
    }
  }

  // ---- The drain marker --------------------------------------------------------------

  lemma CleanForward(d: Root, j: Journal)
    requires InFlight(j, d) && Pointers(d) == BeforeMap(j)
    ensures Execute(d, ForwardWrites(j), [])
         == Exec(d.(current := Some(j.newCurrent), previous := j.newPrevious, state := Some(NewState(j))), Done, [])
  {
    var ws := ForwardWrites(j);
    CleanExecute(d, ws, []);
    ApplyAllSnoc(d, ws, 0); ApplyAllSnoc(d, ws, 1); ApplyAllSnoc(d, ws, 2);
    assert ws[..3] == ws && ApplyAll(d, ws[..0]) == d;
    NoMoreFaults(d, ws);
  }

  lemma {:induction false} NoMoreFaults(d: Root, ws: seq<Write>)
    ensures Execute(d, ws, []).script == []
    decreases |ws|
  {
    if ws != [] {
      var e := Attempt(d, ws[0], []);
      if e.step == Done { NoMoreFaults(e.disk, ws[1..]); }
    }
  }

  function MovedTo(d: Root, j: Journal): Root {
    d.(current := Some(j.newCurrent), previous := j.newPrevious, state := Some(NewState(j)))
  }

  /** An undisturbed transaction commits always; it is finished exactly when the marker of
      the generation it leaves is free or already names the new one. */
  lemma UndisturbedTransact(d: Root, j: Journal)
    requires d.journal == None && JournalOf(d, j)
    ensures
      var r := Transact(d, j, []);
      if DrainConflict(d, j) then r.outcome == PostActionsPending && r.disk == MovedTo(d, j).(journal := Some(j))
      else && r.outcome == Returned(true)
           && r.disk == MovedTo(d, j).(drain := Marked(d, j), receipts := d.receipts + [(j.operation, j.newCurrent)])
  {
    hide Execute, FinishRun, FinishRemovalVerified;
    var started := d.(journal := Some(j));
    CleanForward(started, j);
    var moved := MovedTo(started, j);
    if DrainConflict(d, j) { FinishRefused(moved, j); } else { CleanFinish(j, moved, []); }
  }

  lemma FinishRefused(d: Root, j: Journal)
    requires DrainConflict(d, j)
    ensures FinishRun(d, j, []) == Exec(d, Raised, [])
  {
  }

  /** Seen before the call: an admissible activation of a settled root stays pending if and
      only if the current generation's marker names yet another superseder. */
  lemma ActivationPendsIffMarkerTaken(d: Root, g: Gen, evidence: Evidence)
    requires Valid(d) && d.journal == None && PointersVerify(d) && g in d.verified && d.current != Some(g)
    ensures
      var r := Perform(d, CallActivate(g, evidence, true), []);
      var taken := d.current.Some? && d.current.value in d.drain && d.drain[d.current.value] != g;
      && r.outcome == (if taken then PostActionsPending else Returned(true))
      && Pointers(r.disk) == (Some(g), d.current) && (r.disk.journal == None <==> !taken)
  {
    hide Transact;
    UndisturbedTransact(d, ActivationJournalFor(d, g, Activate, evidence));
  }

  /** Rollbacks take markers for good: activating a generation, rolling back and activating
      a third one always ends pending, its journal kept, and recovery cannot end it. */
  lemma RollbackThenActivatePends(d: Root, g: Gen, h: Gen, first: Evidence, second: Evidence)
    requires Valid(d) && d.journal == None && PointersVerify(d) && d.current.Some?
    requires g in d.verified && h in d.verified && d.current.value != g && g != h && h != d.current.value
    requires d.current.value !in d.drain && g !in d.drain
    ensures
      var e := RunCalls(d, [(CallActivate(g, first, true), []), (CallRollback(true), [])]);
      var r := Perform(e, CallActivate(h, second, true), []);
      && Pointers(e) == (d.current, Some(g)) && e.journal == None
      && r.outcome == PostActionsPending && r.disk.journal.Some?
      && RecoverRun(r.disk, []) == Recovered(r.disk, RecoveryRaised, [])
  {
    hide Transact;
    var calls: seq<(Call, Script)> := [(CallActivate(g, first, true), []), (CallRollback(true), [])];
    var j1 := ActivationJournalFor(d, g, Activate, first);
    UndisturbedTransact(d, j1);
    var d1 := Perform(d, calls[0].0, []).disk;
    assert d1 == Transact(d, j1, []).disk;
    var j2 := ActivationJournalFor(d1, d.current.value, Rollback, NotRequiredForRollback);
    UndisturbedTransact(d1, j2);
    var d2 := Perform(d1, calls[1].0, []).disk;
    assert d2 == Transact(d1, j2, []).disk;
    assert calls[1..][1..] == [] && RunCalls(d, calls) == RunCalls(d1, calls[1..]) == RunCalls(d2, []) == d2;
    var j3 := ActivationJournalFor(d2, h, Activate, second);
    UndisturbedTransact(d2, j3);
    ActivationPendsIffMarkerTaken(d2, h, second);
    UndisturbedRecovery(j3, Perform(d2, CallActivate(h, second, true), []).disk, []);
  }

  // ---- Two faults ----------------------------------------------------------------------

  /** A restore that is stopped between its two pointer writes. */
  lemma RestoreStoppedHalfWay(j: Journal, d: Root)
    requires InFlight(j, d)
    ensures Execute(d, RestoreWrites(j) + [SetJournal(None)], [Completes, Dies]) ==
            Exec(d.(current := j.oldCurrent), Died, [])
  {
    var ws := RestoreWrites(j) + [SetJournal(None)];
    var d1 := Apply(d, ws[0]);
    assert [Completes, Dies][1..] == [Dies] && [Dies][1..] == [];
    assert Attempt(d, ws[0], [Completes, Dies]) == Exec(d1, Done, [Dies]);
    assert ws[1..][0] == ws[1];
    assert Attempt(d1, ws[1], [Dies]) == Exec(d1, Died, []);
    assert Execute(d1, ws[1..], [Dies]) == Exec(d1, Died, []);
  }

  /** Forward writes whose last, the state file, raises with no effect. */
  lemma ForwardRaisesAtState(j: Journal, d: Root, rest: Script)
    requires InFlight(j, d)
    ensures Execute(d, ForwardWrites(j), [Completes, Completes, RaisesBefore] + rest) ==
            Exec(d.(current := Some(j.newCurrent), previous := j.newPrevious), Raised, rest)
  {
    var ws := ForwardWrites(j);
    var d1 := Apply(d, ws[0]);
    var d2 := Apply(d1, ws[1]);
    var s2 := [RaisesBefore] + rest;
    var s1 := [Completes] + s2;
    var s := [Completes, Completes, RaisesBefore] + rest;
    assert s[1..] == s1 && s1[1..] == s2 && s2[1..] == rest;
    assert ws[1..] == [ws[1], ws[2]] && ws[1..][1..] == [ws[2]];
    ExecuteSingle(d2, ws[2], s2);
    assert Attempt(d1, ws[1], s1) == Exec(d2, Done, s2);
    assert Execute(d1, ws[1..], s1) == Execute(d2, [ws[2]], s2);
    assert Attempt(d, ws[0], s) == Exec(d1, Done, s1);
  }

  /** Two faults strand any activation over two distinct pointers for good: the state
      write raises, and the process dies between the two pointer restores.  No later
      recovery, disturbed or not, changes anything. */
  lemma TwoFaultsStrand(d: Root, j: Journal, later: Script)
    requires d.journal == None && JournalOf(d, j) && j.newPrevious != j.oldPrevious
    ensures var e := Transact(d, j, [Completes, Completes, Completes, RaisesBefore, Completes, Dies]).disk;
            && Transact(d, j, [Completes, Completes, Completes, RaisesBefore, Completes, Dies]).outcome == ProcessDied
            && Pointers(e) == StrandedMap(j) && !Allowed(j, Pointers(e))
            && RecoverRun(e, later) == Recovered(e, RecoveryRaised, later)
  {
    var script := [Completes, Completes, Completes, RaisesBefore, Completes, Dies];
    var w := Attempt(d, SetJournal(Some(j)), script);
    assert script[1..] == [Completes, Completes, RaisesBefore] + [Completes, Dies];
    ForwardRaisesAtState(j, w.disk, [Completes, Dies]);
    var f := Execute(w.disk, ForwardWrites(j), w.script);
    assert InFlight(j, f.disk);
    RestoreStoppedHalfWay(j, f.disk);
  }

  /** Such a root exists, so atomicity cannot be stated for two faults. */
  lemma TwoFaultsStrandIsPossible()
    ensures exists d: Root, j: Journal :: d.journal == None && JournalOf(d, j) && j.newPrevious != j.oldPrevious
  {
    var d := Root(Some(1), Some(2), Some(StateFile(1, Some(2), Activate, LegacyUnverified)), None, map[], [], {1, 2, 3});
    var j := ActivationJournalFor(d, 3, Activate, Inactive);
    assert JournalOf(d, j) && j.newPrevious != j.oldPrevious;
  }
}
