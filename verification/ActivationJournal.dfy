// The journaled pointer map of an execution-generation root, as values: what
// each durable write does, which writes an operation issues, and what recovery
// makes of every map that a fault can leave behind.

module ActivationJournal {
  import opened Common

  /** A generation id.  Only its identity matters here. */
  type Gen = nat

  datatype Operation = Activate | Rollback | BootstrapAdopt | BeforeMapRestore

  /** Normalised tenancy evidence; `digest` stands for the bound file content. */
  datatype Evidence =
    | Inactive
    | LegacyUnverified
    | NotRequiredForRollback
    | Verified(digest: nat)

  datatype StateFile = StateFile(
    current: Gen, previous: Option<Gen>, operation: Operation, evidence: Evidence)

  /** `.activation.pending.json`.  The source derives the previous pointer of an
      activation or rollback from `old_current` and stores it only for an adoption. */
  datatype Journal = Journal(
    operation: Operation,
    oldCurrent: Option<Gen>, oldPrevious: Option<Gen>,
    newCurrent: Gen, newPrevious: Option<Gen>,
    oldEvidence: Evidence, newEvidence: Evidence,
    oldState: Option<StateFile>)

  /** The durable content of a root.  `verified` is the set of generation ids whose
      release trees pass verification; `drain[g]` is the superseder in g's marker. */
  datatype Root = Root(
    current: Option<Gen>, previous: Option<Gen>, state: Option<StateFile>,
    journal: Option<Journal>, drain: map<Gen, Gen>,
    receipts: seq<(Operation, Gen)>, verified: set<Gen>)

  type PointerMap = (Option<Gen>, Option<Gen>)

  function Pointers(d: Root): PointerMap { (d.current, d.previous) }

  // ---- One durable write ----------------------------------------------------

  /** `checked` pointers are verified before they are replaced. */
  datatype Write =
    | SetCurrent(target: Option<Gen>, checked: bool)
    | SetPrevious(target: Option<Gen>, checked: bool)
    | SetState(state: Option<StateFile>)
    | SetJournal(journal: Option<Journal>)
    | MarkDrain(generation: Gen, superseder: Gen)
    | AddReceipt(operation: Operation, requested: Gen)

  function Apply(d: Root, w: Write): Root {
    match w
    case SetCurrent(g, _) => d.(current := g)
    case SetPrevious(g, _) => d.(previous := g)
    case SetState(s) => d.(state := s)
    case SetJournal(j) => d.(journal := j)
    case MarkDrain(g, superseder) => d.(drain := d.drain[g := superseder])
    case AddReceipt(op, g) => d.(receipts := d.receipts + [(op, g)])
  }

  /** A checked pointer write to an unverified generation raises before any effect. */
  predicate Refused(d: Root, w: Write) {
    (w.SetCurrent? || w.SetPrevious?) && w.checked && w.target.Some? && w.target.value !in d.verified
  }

  datatype Exec = Exec(disk: Root, step: Step, script: Script)

  function Attempt(d: Root, w: Write, script: Script): Exec {
    if Refused(d, w) then Exec(d, Raised, script)
    else match NextFault(script)
      case Completes => Exec(Apply(d, w), Done, Rest(script))
      case RaisesBefore => Exec(d, Raised, Rest(script))
      case RaisesAfter => Exec(Apply(d, w), Raised, Rest(script))
      case Dies => Exec(d, Died, Rest(script))
  }

  /** Issue writes in order until one does not complete. */
  function Execute(d: Root, ws: seq<Write>, script: Script): Exec
    decreases |ws|
  {
    if ws == [] then Exec(d, Done, script)
    else
      var e := Attempt(d, ws[0], script);
      if e.step == Done then Execute(e.disk, ws[1..], e.script) else e
  }

  function ApplyAll(d: Root, ws: seq<Write>): Root
    decreases |ws|
  {
    if ws == [] then d else ApplyAll(Apply(d, ws[0]), ws[1..])
  }

  // ---- What an operation writes ---------------------------------------------

  function NewState(j: Journal): StateFile {
    StateFile(j.newCurrent, j.newPrevious, j.operation, j.newEvidence)
  }

  /** The state file that a restore leaves: byte-exact for an adoption, a fresh
      before-map record otherwise, and none when nothing was current. */
  function RestoredState(j: Journal): Option<StateFile> {
    if j.operation == BootstrapAdopt then j.oldState
    else match j.oldCurrent
      case None => None
      case Some(g) => Some(StateFile(g, j.oldPrevious, BeforeMapRestore, j.oldEvidence))
  }

  function ForwardWrites(j: Journal): seq<Write> {
    [SetCurrent(Some(j.newCurrent), true), SetPrevious(j.newPrevious, true), SetState(Some(NewState(j)))]
  }

  /** Old pointers of an adoption are restored without claiming verification. */
  function RestoreWrites(j: Journal): seq<Write> {
    var checked := j.operation != BootstrapAdopt;
    [SetCurrent(j.oldCurrent, checked), SetPrevious(j.oldPrevious, checked), SetState(RestoredState(j))]
  }

  /** The generation whose drain marker a commit must leave, if any. */
  function DrainTarget(j: Journal): Option<Gen> {
    if j.operation == BootstrapAdopt || j.oldCurrent == Some(j.newCurrent) then None else j.oldCurrent
  }

  /** A write-once marker naming another superseder cannot be replaced. */
  predicate DrainConflict(d: Root, j: Journal) {
    DrainTarget(j).Some? && DrainTarget(j).value in d.drain && d.drain[DrainTarget(j).value] != j.newCurrent
  }

  /** A receipt is written whenever the readback it embeds can be computed. */
  function FinishWrites(d: Root, j: Journal): seq<Write> {
    (match DrainTarget(j)
     case Some(g) => if g in d.drain then [] else [MarkDrain(g, j.newCurrent)]
     case None => [])
    + (if ReadWithoutPending(d).ReadRaises? then [] else [AddReceipt(j.operation, j.newCurrent)])
  }

  // ---- Readback ---------------------------------------------------------------

  datatype Readback =
    | ReadInterrupted
    | ReadInactive(previous: Option<Gen>)
    | ReadActive(current: Gen, previous: Option<Gen>, evidence: Evidence)
    | ReadMismatch
    | ReadRaises

  predicate PointersVerify(d: Root) {
    (d.current.Some? ==> d.current.value in d.verified) && (d.previous.Some? ==> d.previous.value in d.verified)
  }

  function ReadWithoutPending(d: Root): Readback {
    if !PointersVerify(d) then ReadRaises
    else if d.current.None? then ReadInactive(d.previous)
    else if d.state.None? then ReadRaises
    else if d.state.value.current != d.current.value || d.state.value.previous != d.previous then ReadMismatch
    else ReadActive(d.current.value, d.previous, d.state.value.evidence)
  }

  function ReadActivation(d: Root): Readback {
    if d.journal.Some? then ReadInterrupted else ReadWithoutPending(d)
  }

  // ---- Recovery ---------------------------------------------------------------

  datatype Recovery =
    | NothingPending
    | Finalized(removalVerified: bool)
    | BeforeMapRestored(removalVerified: bool)
    | RecoveryRaised
    | RecoveryDied

  datatype Recovered = Recovered(disk: Root, outcome: Recovery, script: Script)

  function BeforeMap(j: Journal): PointerMap { (j.oldCurrent, j.oldPrevious) }
  function PartialMap(j: Journal): PointerMap { (Some(j.newCurrent), j.oldPrevious) }
  function CommittedMap(j: Journal): PointerMap { (Some(j.newCurrent), j.newPrevious) }
  /** Passed through while a restore undoes a complete map; not an allowed map. */
  function StrandedMap(j: Journal): PointerMap { (j.oldCurrent, j.newPrevious) }

  predicate Allowed(j: Journal, m: PointerMap) {
    m == BeforeMap(j) || m == PartialMap(j) || m == CommittedMap(j)
  }

  predicate Committed(j: Journal, d: Root) {
    Pointers(d) == CommittedMap(j) && d.state == Some(NewState(j))
  }

  /** Remove the journal: a failing fsync is reported, a failing unlink raises. */
  function RemoveJournal(d: Root, script: Script): Exec {
    var e := Attempt(d, SetJournal(None), script);
    if NextFault(script) == RaisesAfter then e.(step := Done) else e
  }

  function RemovalVerified(script: Script): bool { NextFault(script) != RaisesAfter }

  function FinishRun(d: Root, j: Journal, script: Script): Exec {
    if DrainConflict(d, j) then Exec(d, Raised, script)
    else if DrainTarget(j).Some? && DrainTarget(j).value !in d.verified then Exec(d, Raised, script)
    else
      var e := Execute(d, FinishWrites(d, j), script);
      if e.step != Done then e
      else if !ReadWithoutPending(e.disk).ReadActive? then e.(step := Raised)
      else RemoveJournal(e.disk, e.script)
  }

  /** The script that is left when the journal of a finished commit is removed. */
  function FinishRemovalVerified(d: Root, j: Journal, script: Script): bool {
    RemovalVerified(Execute(d, FinishWrites(d, j), script).script)
  }

  function RecoverRun(d: Root, script: Script): Recovered {
    match d.journal
    case None => Recovered(d, NothingPending, script)
    case Some(j) =>
      if j.operation != BootstrapAdopt && !PointersVerify(d) then Recovered(d, RecoveryRaised, script)
      else if Committed(j, d) then
        var e := FinishRun(d, j, script);
        Recovered(e.disk,
                  match e.step
                  case Done => Finalized(FinishRemovalVerified(d, j, script))
                  case Raised => RecoveryRaised
                  case Died => RecoveryDied,
                  e.script)
      else if !Allowed(j, Pointers(d)) then Recovered(d, RecoveryRaised, script)
      else
        var e := Execute(d, RestoreWrites(j), script);
        if e.step == Raised then Recovered(e.disk, RecoveryRaised, e.script)
        else if e.step == Died then Recovered(e.disk, RecoveryDied, e.script)
        else
          var r := RemoveJournal(e.disk, e.script);
          Recovered(r.disk,
                    match r.step
                    case Done => BeforeMapRestored(RemovalVerified(e.script))
                    case Raised => RecoveryRaised
                    case Died => RecoveryDied,
                    r.script)
  }

  // ---- The three operations -----------------------------------------------------

  datatype Outcome =
    | Returned(removalVerified: bool)
    | Preserved
    | RecoveredInstead(recovery: Recovery)
    | RefusedUnchanged
    | FailedRestoring
    | PostActionsPending
    | ProcessDied

  datatype Run = Run(disk: Root, outcome: Outcome, script: Script)

  /** Journal, move the map, and either finish or restore. */
  function Transact(d: Root, j: Journal, script: Script): Run {
    var w := Attempt(d, SetJournal(Some(j)), script);
    if w.step == Raised then Run(w.disk, FailedRestoring, w.script)
    else if w.step == Died then Run(w.disk, ProcessDied, w.script)
    else
      var f := Execute(w.disk, ForwardWrites(j), w.script);
      if f.step == Died then Run(f.disk, ProcessDied, f.script)
      else if f.step == Raised then
        var r := Execute(f.disk, RestoreWrites(j) + [SetJournal(None)], f.script);
        Run(r.disk, if r.step == Died then ProcessDied else FailedRestoring, r.script)
      else
        var e := FinishRun(f.disk, j, f.script);
        Run(e.disk,
            match e.step
            case Done => Returned(FinishRemovalVerified(f.disk, j, f.script))
            case Raised => PostActionsPending
            case Died => ProcessDied,
            e.script)
  }

  function OldEvidence(d: Root): Evidence {
    match ReadWithoutPending(d)
    case ReadActive(_, _, e) => e
    case _ => Inactive
  }

  function ActivationJournalFor(d: Root, g: Gen, op: Operation, evidence: Evidence): Journal {
    Journal(op, d.current, d.previous, g, d.current, OldEvidence(d),
            if op == Rollback then NotRequiredForRollback else evidence, None)
  }

  function ActivateLocked(d: Root, g: Gen, op: Operation, evidence: Evidence, script: Script): Run {
    if g !in d.verified || !PointersVerify(d) then Run(d, RefusedUnchanged, script)
    else if !(ReadWithoutPending(d).ReadActive? || ReadWithoutPending(d).ReadInactive?) then
      Run(d, RefusedUnchanged, script)
    else if d.current == Some(g) then Run(d, Preserved, script)
    else if d.journal.Some? then Run(d, RefusedUnchanged, script)
    else Transact(d, ActivationJournalFor(d, g, op, evidence), script)
  }

  /** A call; `ready` is the verdict of the recovery anchor, seal and evidence checks. */
  datatype Call =
    | CallActivate(generation: Gen, evidence: Evidence, ready: bool)
    | CallRollback(ready: bool)
    | CallBootstrap(generation: Gen, rollback: Gen, expectedCurrent: Gen, expectedPrevious: Gen,
                    evidence: Evidence, ready: bool)

  predicate StopsAtRecovery(r: Recovery) {
    match r
    case NothingPending => false
    case BeforeMapRestored(verified) => !verified
    case _ => true
  }

  predicate BootstrapAdmissible(d: Root, c: Call)
    requires c.CallBootstrap?
  {
    && c.generation != c.rollback
    && c.generation in d.verified && c.rollback in d.verified
    && c.generation !in {c.expectedCurrent, c.expectedPrevious}
    && c.rollback !in {c.expectedCurrent, c.expectedPrevious}
    && d.current == Some(c.expectedCurrent) && d.previous == Some(c.expectedPrevious)
    && d.state.Some?
    && d.state.value.current == c.expectedCurrent && d.state.value.previous == Some(c.expectedPrevious)
  }

  function BootstrapJournal(d: Root, c: Call): Journal
    requires c.CallBootstrap? && BootstrapAdmissible(d, c)
  {
    Journal(BootstrapAdopt, d.current, d.previous, c.generation, Some(c.rollback),
            d.state.value.evidence, c.evidence, d.state)
  }

  function Perform(d: Root, c: Call, script: Script): Run {
    var r := RecoverRun(d, script);
    if StopsAtRecovery(r.outcome) then Run(r.disk, RecoveredInstead(r.outcome), r.script)
    else if !c.ready then Run(r.disk, RefusedUnchanged, r.script)
    else match c
      case CallActivate(g, evidence, _) => ActivateLocked(r.disk, g, Activate, evidence, r.script)
      case CallRollback(_) =>
        if r.disk.previous.None? then Run(r.disk, RefusedUnchanged, r.script)
        else ActivateLocked(r.disk, r.disk.previous.value, Rollback, NotRequiredForRollback, r.script)
      case CallBootstrap(_, _, _, _, _, _) =>
        if !BootstrapAdmissible(r.disk, c) then Run(r.disk, RefusedUnchanged, r.script)
        else if r.disk.journal.Some? then Run(r.disk, RefusedUnchanged, r.script)
        else Transact(r.disk, BootstrapJournal(r.disk, c), r.script)
  }

  // ---- Invariants -------------------------------------------------------------------

  /** State file and pointers agree whenever something is current. */
  predicate Settled(m: PointerMap, s: Option<StateFile>) {
    m.0.Some? ==> s.Some? && s.value.current == m.0.value && s.value.previous == m.1
  }

  predicate WellFormed(j: Journal, verified: set<Gen>) {
    && j.newCurrent in verified
    && (j.newPrevious.Some? ==> j.newPrevious.value in verified)
    && j.oldCurrent != Some(j.newCurrent)
    && match j.operation
       case BootstrapAdopt =>
         && j.newPrevious.Some? && j.oldCurrent.Some? && j.oldPrevious.Some?
         && j.newPrevious.value != j.newCurrent
         && j.newPrevious !in {j.oldCurrent, j.oldPrevious} && j.oldPrevious != Some(j.newCurrent)
         && Settled(BeforeMap(j), j.oldState)
       case BeforeMapRestore => false
       case _ =>
         && j.newPrevious == j.oldCurrent
         && (j.oldCurrent.Some? ==> j.oldCurrent.value in verified)
         && (j.oldPrevious.Some? ==> j.oldPrevious.value in verified)
  }

  /** Everything a fault can leave while journal `j` is pending. */
  predicate InFlight(j: Journal, d: Root) {
    && d.journal == Some(j) && WellFormed(j, d.verified)
    && (Allowed(j, Pointers(d)) || Pointers(d) == StrandedMap(j))
    && (d.state == Some(NewState(j)) || Settled(BeforeMap(j), d.state))
  }

  predicate Valid(d: Root) {
    match d.journal
    case None => Settled(Pointers(d), d.state)
    case Some(j) => InFlight(j, d)
  }
}
