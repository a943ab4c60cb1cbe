// Anchor rotation and batch sealing as the step-by-step file updates they are,
// with a fault and possibly a foreign commit at every step.

module RecoveryStore {
  import opened Common
  import opened RecoveryEvidence

  /** What one step meets: a fault, and a commit by another writer just before it,
      which waits while the writer slot is held. */
  datatype Happening = Happening(fault: Fault, interrupt: bool, commit: Option<Content>)

  datatype RotateOutcome = Rotated | PreservedCurrent | RotateRaised(interrupt: bool) | RotateDied

  const CALM := Happening(Completes, false, None)

  function Next(script: seq<Happening>): Happening { if script == [] then CALM else script[0] }
  function Later(script: seq<Happening>): seq<Happening> { if script == [] then [] else script[1..] }
  function Felt(h: Happening): Step {
    match h.fault case Completes => Done case Dies => Died case _ => Raised
  }

  /** How many of the steps to come are disturbed, are deaths, or let a writer in. */
  function Faults(script: seq<Happening>): nat {
    if script == [] then 0 else (if script[0].fault == Completes then 0 else 1) + Faults(script[1..])
  }
  function Deaths(script: seq<Happening>): nat {
    if script == [] then 0 else (if script[0].fault == Dies then 1 else 0) + Deaths(script[1..])
  }
  function Commits(script: seq<Happening>): nat {
    if script == [] then 0 else (if script[0].commit.None? then 0 else 1) + Commits(script[1..])
  }

  /** From one script to what is left of it: a death, and nothing else, ended what ran. */
  predicate Passed(before: seq<Happening>, after: seq<Happening>, died: bool) {
    && Faults(after) <= Faults(before) && Commits(after) <= Commits(before)
    && Deaths(before) == Deaths(after) + if died then 1 else 0
  }

  predicate TakesEffect(f: Fault) { f == Completes || f == RaisesAfter }

  /** Whether a record is there after its link, the sync behind it, and the unlink that a
      raise of either brings about. */
  predicate StaysLinked(script: seq<Happening>) {
    var first, second, third := Next(script).fault, Next(Later(script)).fault, Next(Later(Later(script))).fault;
    match first
    case Completes => second == Completes || second == Dies || !TakesEffect(third)
    case RaisesAfter => !TakesEffect(second)
    case _ => false
  }

  lemma AddedThenRemoved<K, V>(m: map<K, V>, k: K, v: V)
    requires k !in m
    ensures m[k := v] - {k} == m
  {
  }

  /** Attempt first, then at most one receipt: together one sealing step. */
  lemma FreshSealStep(a: Store, m: Store, b: Store, batch: BatchId, attempt: Attempt, expected: nat, out: SealOutcome)
    requires a.batches <= b.batches <= a.batches + {batch} && batch in b.batches
    requires batch !in a.receipts && m.receipts == a.receipts
    requires m.attempts == a.attempts || (batch !in a.attempts && m.attempts == a.attempts[batch := attempt])
    requires batch in m.attempts && m.attempts[batch] == attempt && b.attempts == m.attempts
    requires b.receipts == m.receipts ||
             (batch in b.receipts && WrittenReceipt(attempt, b.receipts[batch]) &&
              b.receipts == m.receipts[batch := b.receipts[batch]])
    requires out.SealReturned? ==>
               && batch in b.receipts && out == SealReturned(b.receipts[batch], false)
               && (b.receipts[batch].verdict == Sealed ==>
                     Ready(b, expected) && b.receipts[batch].anchor == Some(b.anchor.value.digest))
    ensures SealStep(a, b, batch, attempt.owner, expected, out)
  {
  }

  // ---- Where a call stands ---------------------------------------------------------

  /** A phase is over, or it was left with this source and these happenings to come. */
  datatype Moment = Ended | At(source: Content, script: seq<Happening>)

  function Committed(source: Content, h: Happening): Content { if h.commit.Some? then h.commit.value else source }

  /** A step outside the writer slot that completes. */
  function StepOn(source: Content, script: seq<Happening>): Moment {
    if Next(script).fault == Completes then At(Committed(source, Next(script)), Later(script)) else Ended
  }

  function BatchOpened(s: Store, batch: BatchId, script: seq<Happening>): Moment {
    if batch in s.batches then At(s.source, script)
    else if |s.batches| >= MAX_BATCHES then Ended
    else StepOn(s.source, script)
  }

  /** Read the source, link the attempt, sync its directory. */
  function AttemptOpened(attempts: map<BatchId, Attempt>, batch: BatchId, owner: Owner, source: Content, script: seq<Happening>): Moment {
    if batch in attempts then (if attempts[batch].owner == owner then At(source, script) else Ended)
    else
      match StepOn(source, script)
      case Ended => Ended
      case At(read, rest) =>
        match StepOn(read, rest)
        case Ended => Ended
        case At(linked, later) => StepOn(linked, later)
  }

  function AttemptedFingerprint(attempts: map<BatchId, Attempt>, batch: BatchId, source: Content, script: seq<Happening>)
    : Fingerprint
  {
    if batch in attempts then attempts[batch].fingerprint else CurrentFingerprint(Committed(source, Next(script)))
  }

  /** The anchor was found not to be current, at once or inside the writer slot. */
  function CandidateNeeded(s: Store, script: seq<Happening>, expected: nat): Moment {
    match StepOn(s.source, script)
    case Ended => Ended
    case At(source, rest) =>
      if !Ready(s.(source := source), expected) then At(source, rest)
      else
        match StepOn(source, rest)
        case Ended => Ended
        case At(locked, later) => if Ready(s.(source := locked), expected) then Ended else At(locked, later)
  }

  /** A candidate with the returned source's content is published beside the anchor. */
  function CandidateMade(source: Content, script: seq<Happening>, expected: nat): Moment {
    match StepOn(source, script)
    case Ended => Ended
    case At(copied, rest) =>
      if copied.version != expected then Ended
      else
        match StepOn(copied, rest)
        case Ended => Ended
        case At(locked, later) =>
          if locked == copied && Next(later).fault == Completes && Next(Later(later)).fault == Completes
          then At(locked, Later(Later(later))) else Ended
  }

  /** There is an anchor that may be replaced, and a free name to keep it under. */
  predicate Replaceable(s: Store, expected: nat, name: Name) {
    s.anchor.Some? && RotationEvidence(s.anchor.value, expected) && name !in s.superseded
  }

  // ---- The window of a rotation ------------------------------------------------------

  /** The slot is taken, the candidate is current, and an exception arrives after the
      exchange and before its flag is set. */
  predicate GapOpens(candidate: Bundle, source: Content, script: seq<Happening>, expected: nat) {
    && Next(script).fault == Completes && Next(Later(script)).fault == RaisesAfter
    && CurrentFor(candidate, Committed(source, Next(script)), expected)
  }

  /** Cleanup then takes the old bundle for the candidate and deletes it, and no equal
      bundle is anywhere else. */
  predicate CleanupDeletes(candidate: Bundle, previous: Bundle, superseded: map<Name, Bundle>, script: seq<Happening>) {
    && Next(Later(Later(script))).fault in {Completes, RaisesAfter}
    && candidate != previous && previous !in superseded.Values
  }

  predicate ReplaceGap(source: Content, script: seq<Happening>, expected: nat, layout: nat) {
    match CandidateMade(source, script, expected)
    case Ended => false
    case At(copied, rest) => GapOpens(Bundle(Digest(copied, layout), true), copied, rest, expected)
  }

  predicate ReplaceLoses(s: Store, script: seq<Happening>, expected: nat, layout: nat) {
    match CandidateMade(s.source, script, expected)
    case Ended => false
    case At(copied, rest) =>
      var candidate := Bundle(Digest(copied, layout), true);
      && GapOpens(candidate, copied, rest, expected)
      && s.anchor.Some? && CleanupDeletes(candidate, s.anchor.value, s.superseded, rest)
  }

  predicate RotationGap(s: Store, script: seq<Happening>, expected: nat, name: Name, layout: nat) {
    match CandidateNeeded(s, script, expected)
    case Ended => false
    case At(source, rest) => Replaceable(s, expected, name) && ReplaceGap(source, rest, expected, layout)
  }

  /** The exact condition, on the store and the happenings before the call, under which a
      rotation loses the bundle that it replaces. */
  predicate RotationLoses(s: Store, script: seq<Happening>, expected: nat, name: Name, layout: nat) {
    match CandidateNeeded(s, script, expected)
    case Ended => false
    case At(source, rest) =>
      Replaceable(s, expected, name) && ReplaceLoses(s.(source := source), rest, expected, layout)
  }

  /** The same condition before an attempted batch is sealed. */
  predicate AttemptLoses(s: Store, fingerprint: Fingerprint, expected: nat, name: Name, layout: nat, script: seq<Happening>) {
    match StepOn(s.source, script)
    case Ended => false
    case At(seen, rest) =>
      CurrentFingerprint(seen) == fingerprint && RotationLoses(s.(source := seen), rest, expected, name, layout)
  }

  /** The same condition before a batch without a receipt is sealed. */
  predicate FreshLoses(s: Store, batch: BatchId, owner: Owner, expected: nat, name: Name, layout: nat, script: seq<Happening>) {
    match AttemptOpened(s.attempts, batch, owner, s.source, script)
    case Ended => false
    case At(now, last) =>
      AttemptLoses(s.(source := now), AttemptedFingerprint(s.attempts, batch, s.source, script), expected, name, layout, last)
  }

  /** The same condition before a sealing call. */
  predicate SealLoses(s: Store, batch: BatchId, owner: Owner, expected: nat, name: Name, layout: nat, script: seq<Happening>) {
    && owner != Unauthorized && batch !in s.receipts
    && match BatchOpened(s, batch, script)
       case Ended => false
       case At(source, rest) => FreshLoses(s.(source := source), batch, owner, expected, name, layout, rest)
  }

  lemma OnlyAnchorsDecide(a: Store, b: Store, fingerprint: Fingerprint, expected: nat, name: Name, layout: nat,
                          script: seq<Happening>)
    requires a.source == b.source && a.anchor == b.anchor && a.superseded == b.superseded
    ensures AttemptLoses(a, fingerprint, expected, name, layout, script)
        <==> AttemptLoses(b, fingerprint, expected, name, layout, script)
  {
    match StepOn(a.source, script)
    case Ended =>
    case At(seen, rest) =>
      assert CandidateNeeded(a.(source := seen), rest, expected) == CandidateNeeded(b.(source := seen), rest, expected);
  }

  lemma BatchesDoNotLose(a: Store, b: Store, batch: BatchId, owner: Owner, expected: nat, name: Name, layout: nat,
                         script: seq<Happening>)
    requires b == a.(batches := b.batches)
    ensures FreshLoses(a, batch, owner, expected, name, layout, script)
        <==> FreshLoses(b, batch, owner, expected, name, layout, script)
  {
    hide AttemptLoses;
    match AttemptOpened(a.attempts, batch, owner, a.source, script)
    case Ended =>
    case At(now, last) =>
      var fingerprint := AttemptedFingerprint(a.attempts, batch, a.source, script);
      OnlyAnchorsDecide(a.(source := now), b.(source := now), fingerprint, expected, name, layout, last);
  }

  lemma SameAnchorsSameEvidence(a: Store, b: Store)
    requires a.anchor == b.anchor && a.superseded == b.superseded
    ensures Evidence(a) == Evidence(b)
  {
  }

  /** The condition can be met: a stale anchor, and one exception at the wrong moment. */
  lemma RotationCanLoseTheAnchor()
    ensures
      var calm := Happening(Completes, false, None);
      var stale := Bundle(Digest(Content(1, 0), 0), true);
      var s := Store(Content(1, 7), Some(stale), map[], {}, map[], map[]);
      && RotationEvidence(stale, 1)
      && RotationLoses(s, [calm, calm, calm, calm, calm, calm, Happening(RaisesAfter, true, None)], 1, 0, 0)
  {
    var calm := Happening(Completes, false, None);
    var s6: seq<Happening> := [Happening(RaisesAfter, true, None)];
    var s5: seq<Happening> := [calm] + s6;
    var s4: seq<Happening> := [calm] + s5;
    var s3: seq<Happening> := [calm] + s4;
    var s2: seq<Happening> := [calm] + s3;
    var s1: seq<Happening> := [calm] + s2;
    var s0: seq<Happening> := [calm] + s1;
    assert s2 == [calm, calm, calm, calm, Happening(RaisesAfter, true, None)];
    assert s0 == [calm, calm, calm, calm, calm, calm, Happening(RaisesAfter, true, None)];
    assert Later(s0) == s1 && Later(s1) == s2 && Later(s2) == s3 && Later(s3) == s4 && Later(s4) == s5;
    assert Later(s5) == s6 && Later(s6) == [];
    var stale := Bundle(Digest(Content(1, 0), 0), true);
    var s := Store(Content(1, 7), Some(stale), map[], {}, map[], map[]);
    assert StepOn(s.source, s0) == At(s.source, s1) && StepOn(s.source, s1) == At(s.source, s2);
    assert CandidateNeeded(s, s0, 1) == At(s.source, s1);
    assert StepOn(s.source, s2) == At(s.source, s3);
    assert CandidateMade(s.source, s1, 1) == At(s.source, s5);
    assert Replaceable(s, 1, 0);
    assert GapOpens(Bundle(Digest(s.source, 0), true), s.source, s5, 1);
  }

  /** After an exchange without the window, or with it, what is left of the evidence. */
  lemma EvidenceAfterRotation(a: Store, b: Store, name: Name, deleted: bool)
    requires a.anchor.Some? && b.anchor.Some? && name !in a.superseded
    requires b.superseded == if deleted then a.superseded else a.superseded[name := a.anchor.value]
    ensures Evidence(a) <= Evidence(b) <==>
      !(deleted && b.anchor != a.anchor && a.anchor.value !in a.superseded.Values)
  {
    if deleted {
      assert a.anchor.value in Evidence(a);
    } else {
      assert b.superseded[name] == a.anchor.value;
      forall x | x in a.superseded.Values ensures x in b.superseded.Values {
        var n :| n in a.superseded && a.superseded[n] == x;
        assert b.superseded[n] == x;
      }
    }
  }

  function UnsealedReceipt(s: Store, attempt: Attempt, reason: Reason): Receipt {
    Receipt(attempt, Unsealed(reason), if s.anchor.Some? then Some(s.anchor.value.digest) else None, false)
  }

  /** A call that leaves the records alone, and either raises or replays. */
  lemma RecordsAlone(a: Store, b: Store, batch: BatchId, owner: Owner, expected: nat, name: Name, layout: nat, now: nat,
                     out: SealOutcome)
    requires b == a.(batches := b.batches, source := b.source) && a.batches <= b.batches <= a.batches + {batch}
    requires out.SealReturned? ==>
               && batch in b.receipts && out == SealReturned(b.receipts[batch], true) && batch in b.batches
               && b.receipts[batch].attempt.owner == owner
               && (b.receipts[batch].verdict == Sealed ==>
                     Ready(b, expected) && b.receipts[batch].anchor == Some(b.anchor.value.digest))
    ensures SealStep(a, b, batch, owner, expected, out)
    ensures b.source == a.source && !Admitted(a, batch, owner) && out == SealRaised ==>
              CalmSeal(a, b, batch, owner, expected, name, layout, now, out)
    ensures b.source == a.source && batch in a.receipts && owner != Unauthorized
            && (batch in a.batches || |a.batches| < MAX_BATCHES)
            && out == (if a.receipts[batch].attempt.owner != owner
                          || (a.receipts[batch].verdict == Sealed && !NowSealed(b, a.receipts[batch], expected))
                       then SealRaised else SealReturned(a.receipts[batch], true)) ==>
              CalmSeal(a, b, batch, owner, expected, name, layout, now, out)
  {
    hide SchemaOf;
  }

  /** Opening the batch first changes nothing of what a call then does. */
  lemma BatchOpenedFirst(a: Store, m: Store, b: Store, batch: BatchId, owner: Owner, expected: nat, name: Name, layout: nat,
                         now: nat, out: SealOutcome)
    requires m == a.(batches := m.batches, source := m.source) && batch !in a.receipts && owner != Unauthorized
    requires a.batches <= m.batches <= a.batches + {batch} && batch in m.batches
    ensures SealStep(m, b, batch, owner, expected, out) ==> SealStep(a, b, batch, owner, expected, out)
    ensures m.source == a.source && (batch in a.batches || |a.batches| < MAX_BATCHES)
            && CalmSeal(m, b, batch, owner, expected, name, layout, now, out) ==>
              CalmSeal(a, b, batch, owner, expected, name, layout, now, out)
  {
    hide CalmAttempt;
  }

  /** A calm rotation that returned leaves a receipt that is true. */
  lemma CalmRotationIsTrue(a: Store, b: Store, batch: BatchId, attempt: Attempt, expected: nat, name: Name, layout: nat)
    requires attempt.fingerprint == CurrentFingerprint(a.source)
    ensures (Ready(a, expected) || Rotatable(a, expected, name)) && batch in b.receipts
            && CalmAttempt(a, b, batch, attempt, expected, name, layout, SealReturned(b.receipts[batch], false)) ==>
              && NowSealed(b, b.receipts[batch], expected) && b.receipts[batch].verdict == Sealed
  {
  }

  /** A calm rotation that could not start is recorded as failed. */
  lemma CalmFailureIsRecorded(a: Store, b: Store, batch: BatchId, attempt: Attempt, expected: nat, name: Name, layout: nat,
                              out: SealOutcome)
    requires attempt.fingerprint == CurrentFingerprint(a.source)
    ensures !Ready(a, expected) && !Rotatable(a, expected, name)
            && b == a.(receipts := a.receipts[batch := UnsealedReceipt(a, attempt, RotationFailed)])
            && out == SealReturned(UnsealedReceipt(a, attempt, RotationFailed), false) ==>
              CalmAttempt(a, b, batch, attempt, expected, name, layout, out)
  {
  }

  class Vault {
    var source: Content
    var anchor: Option<Bundle>
    var superseded: map<Name, Bundle>
    var batches: set<BatchId>
    var attempts: map<BatchId, Attempt>
    var receipts: map<BatchId, Receipt>
    /** SQLite's writer slot. */
    var held: bool
    var script: seq<Happening>

    constructor (s: Store, happenings: seq<Happening>)
      ensures Value() == s && !held && script == happenings
    {
      source, anchor, superseded, batches := s.source, s.anchor, s.superseded, s.batches;
      attempts, receipts, held, script := s.attempts, s.receipts, false, happenings;
    }

    function Value(): Store
      reads this
    {
      Store(source, anchor, superseded, batches, attempts, receipts)
    }

    /** Foreign commit, then the fault of the coming step. */
    method Tick() returns (h: Happening)
      modifies this`source, this`script
      ensures h == Next(old(script)) && script == Later(old(script))
      ensures source == if held then old(source) else Committed(old(source), h)
      ensures Passed(old(script), script, h.fault == Dies)
      ensures Faults(old(script)) == Faults(script) + if h.fault == Completes then 0 else 1
      ensures Commits(old(script)) == 0 ==> source == old(source)
    {
      h := Next(script);
      script := Later(script);
      if !held && h.commit.Some? { source := h.commit.value; }
    }

    /** A step that only reads, or whose effect nobody else sees. */
    method Probe() returns (step: Step, interrupt: bool)
      modifies this`source, this`script
      ensures step == Felt(Next(old(script))) && script == Later(old(script))
      ensures source == if held then old(source) else Committed(old(source), Next(old(script)))
      ensures Passed(old(script), script, step == Died) && (Commits(old(script)) == 0 ==> source == old(source))
      ensures step == Done <==> Faults(script) == Faults(old(script))
    {
      var h := Tick();
      return Felt(h), h.interrupt;
    }

    method AcquireSlot() returns (step: Step, interrupt: bool)
      requires !held
      modifies this`source, this`script, this`held
      ensures held <==> step == Done
      ensures step == Felt(Next(old(script))) && script == Later(old(script))
      ensures source == Committed(old(source), Next(old(script)))
      ensures Passed(old(script), script, step == Died) && (Commits(old(script)) == 0 ==> source == old(source))
      ensures step == Done <==> Faults(script) == Faults(old(script))
    {
      step, interrupt := Probe();
      held := step == Done;
    }

    /** Link a record that must not exist; if anything after the link raises, unlink it
        again.  The unlink itself may fail, which leaves the record. */
    method PublishReceipt(batch: BatchId, r: Receipt) returns (step: Step, interrupt: bool)
      modifies this`source, this`script, this`receipts
      ensures held ==> source == old(source)
      ensures batch in old(receipts) ==> receipts == old(receipts)
      ensures receipts == old(receipts) || (batch !in old(receipts) && receipts == old(receipts)[batch := r])
      ensures step == Done ==> batch !in old(receipts) && receipts == old(receipts)[batch := r]
      ensures old(script) == [] ==> source == old(source) && script == [] && (step == Done <==> batch !in old(receipts))
      ensures Passed(old(script), script, step == Died) && (Commits(old(script)) == 0 ==> source == old(source))
      ensures step == Done ==> Faults(script) == Faults(old(script))
      ensures step != Done && batch !in old(receipts) ==> Faults(script) < Faults(old(script))
      ensures step == Raised && Faults(old(script)) <= 1 ==> receipts == old(receipts)
      ensures batch !in old(receipts) ==> (batch in receipts <==> StaysLinked(old(script)))
    {
      hide Faults, Deaths, Commits;
      var h := Tick();
      interrupt := h.interrupt;
      if h.fault == Dies { return Died, interrupt; }
      if h.fault == RaisesBefore || batch in receipts { return Raised, interrupt; }
      AddedThenRemoved(receipts, batch, r);
      receipts := receipts[batch := r];
      if h.fault == Completes {
        step, interrupt := Probe();
        if step != Raised { return; }
      }
      var undo := Tick();
      if undo.fault == Dies { return Died, interrupt; }
      if undo.fault != RaisesBefore { receipts := receipts - {batch}; }
      return Raised, interrupt;
    }

    method PublishAttempt(batch: BatchId, attempt: Attempt) returns (step: Step)
      requires batch !in attempts
      modifies this`source, this`script, this`attempts
      ensures attempts == old(attempts) || attempts == old(attempts)[batch := attempt]
      ensures step == Done ==> attempts == old(attempts)[batch := attempt]
      ensures held ==> source == old(source)
      ensures step == Done <==>
                Next(old(script)).fault == Completes && Next(Later(old(script))).fault == Completes
      ensures step == Done && !held ==>
                StepOn(Committed(old(source), Next(old(script))), Later(old(script))) == At(source, script)
      ensures old(script) == [] ==> source == old(source) && script == [] && step == Done
      ensures Passed(old(script), script, step == Died) && (Commits(old(script)) == 0 ==> source == old(source))
      ensures step == Done <==> Faults(script) == Faults(old(script))
      ensures step == Raised && Faults(old(script)) <= 1 ==> attempts == old(attempts)
      ensures batch in attempts <==> StaysLinked(old(script))
    {
      hide Faults, Deaths, Commits;
      var h := Tick();
      if h.fault == Dies { return Died; }
      if h.fault == RaisesBefore { return Raised; }
      AddedThenRemoved(attempts, batch, attempt);
      attempts := attempts[batch := attempt];
      if h.fault == Completes {
        var interrupt;
        step, interrupt := Probe();
        if step != Raised { return; }
      }
      var undo := Tick();
      if undo.fault == Dies { return Died; }
      if undo.fault != RaisesBefore { attempts := attempts - {batch}; }
      return Raised;
    }

    /** Copy the source to an unoccupied sibling path.  The copy is published only while
        the writer slot is held and the source still equals it.  The caller deletes what
        a failed creation left, ignoring deletion errors. */
    method CreateCandidate(name: Name, layout: nat, expected: nat) returns (step: Step, interrupt: bool)
      requires !held && name !in superseded
      modifies this`source, this`script, this`superseded, this`held
      ensures !held
      ensures superseded == old(superseded) ||
              (name in superseded && superseded == old(superseded)[name := superseded[name]])
      ensures step == Done ==> name in superseded && Verifies(superseded[name], expected)
      ensures step == Done ==> superseded[name] == Bundle(Digest(source, layout), true)
      ensures CandidateMade(old(source), old(script), expected) == if step == Done then At(source, script) else Ended
      ensures old(script) == [] ==>
                && script == [] && source == old(source)
                && (if source.version == expected
                    then step == Done && superseded == old(superseded)[name := Bundle(Digest(source, layout), true)]
                    else step == Raised && superseded == old(superseded) && !interrupt)
      ensures Passed(old(script), script, step == Died) && (Commits(old(script)) == 0 ==> source == old(source))
      ensures step == Done ==> Faults(script) == Faults(old(script))
      ensures step == Raised && Faults(old(script)) <= 1 ==> superseded == old(superseded)
    {
      hide Faults, Deaths, Commits;
      step, interrupt := Probe();
      if step != Done { return; }
      var copy := Bundle(Digest(source, layout), true);
      if !Verifies(copy, expected) { return Raised, false; }
      step, interrupt := AcquireSlot();
      if step != Done { return; }
      if source != copy.digest.content { held := false; return Raised, false; }
      step, interrupt := LinkCandidate(name, copy);
    }

    /** Publish the copy inside the writer slot, and delete it again if anything raises. */
    method LinkCandidate(name: Name, copy: Bundle) returns (step: Step, interrupt: bool)
      requires held && name !in superseded
      modifies this`source, this`script, this`superseded, this`held
      ensures !held
      ensures superseded == old(superseded) || superseded == old(superseded)[name := copy]
      ensures step == Done ==> superseded == old(superseded)[name := copy] && source == old(source)
      ensures step == Done <==> Next(old(script)).fault == Completes && Next(Later(old(script))).fault == Completes
      ensures step == Done ==> script == Later(Later(old(script)))
      ensures Passed(old(script), script, step == Died) && (Commits(old(script)) == 0 ==> source == old(source))
      ensures step == Done <==> Faults(script) == Faults(old(script))
      ensures step == Raised && Faults(old(script)) <= 1 ==> superseded == old(superseded)
      ensures name in superseded <==> StaysLinked(old(script))
    {
      hide Faults, Deaths, Commits;
      var h := Tick();
      interrupt := h.interrupt;
      if h.fault == Dies { held := false; return Died, interrupt; }
      if h.fault == RaisesBefore { held := false; return Raised, interrupt; }
      AddedThenRemoved(superseded, name, copy);
      superseded := superseded[name := copy];
      step := Raised;
      if h.fault == Completes { step, interrupt := Probe(); }
      held := false;
      if step == Raised {
        var undo := Tick();
        if undo.fault == Dies { return Died, interrupt; }
        if undo.fault != RaisesBefore { superseded := superseded - {name}; }
      }
    }

    /** `publish_verified_receipt`, called inside the writer slot. */
    method OnVerified(batch: BatchId, attempt: Attempt, expected: nat, rotated: bool)
      returns (step: Step, interrupt: bool)
      requires held && anchor.Some? && batch !in receipts
      modifies this`source, this`script, this`receipts
      ensures source == old(source)
      ensures receipts == old(receipts) ||
              (batch in receipts && WrittenReceipt(attempt, receipts[batch]) && receipts[batch].verdict == Sealed &&
               receipts == old(receipts)[batch := receipts[batch]])
      ensures step == Done ==>
                receipts == old(receipts)[batch := Receipt(attempt, Sealed, Some(anchor.value.digest), rotated)]
      ensures old(script) == [] && Ready(Value(), expected) && CurrentFingerprint(source) == attempt.fingerprint ==>
                step == Done && script == []
      ensures Passed(old(script), script, step == Died) && (Commits(old(script)) == 0 ==> source == old(source))
      ensures step == Done ==> Faults(script) == Faults(old(script))
      ensures step == Raised && Faults(old(script)) <= 1 ==> receipts == old(receipts)
      ensures step == Raised && Ready(Value(), expected) && CurrentFingerprint(source) == attempt.fingerprint ==>
                Faults(script) < Faults(old(script))
    {
      if !CurrentFor(anchor.value, source, expected) { return Raised, false; }
      step, interrupt := Probe();
      if step != Done { return; }
      if CurrentFingerprint(source) != attempt.fingerprint { return Raised, false; }
      step, interrupt := PublishReceipt(batch, Receipt(attempt, Sealed, Some(anchor.value.digest), rotated));
    }

    /** A current anchor is kept as it is, and sealed inside the writer slot. */
    method PreserveCurrent(batch: BatchId, attempt: Attempt, expected: nat)
      returns (settled: bool, out: RotateOutcome)
      requires !held && batch !in receipts
      modifies this`source, this`script, this`receipts, this`held
      ensures !held
      ensures receipts == old(receipts) ||
              (batch in receipts && WrittenReceipt(attempt, receipts[batch]) && receipts[batch].verdict == Sealed &&
               receipts == old(receipts)[batch := receipts[batch]])
      ensures !settled ==> receipts == old(receipts)
      ensures CandidateNeeded(old(Value()), old(script), expected) == if settled then Ended else At(source, script)
      ensures settled ==> !out.Rotated?
      ensures settled && out.PreservedCurrent? ==>
                && anchor.Some?
                && receipts == old(receipts)[batch := Receipt(attempt, Sealed, Some(anchor.value.digest), false)]
      ensures old(script) == [] && CurrentFingerprint(old(source)) == attempt.fingerprint ==>
                && script == [] && source == old(source)
                && settled == Ready(old(Value()), expected)
                && (settled ==> out.PreservedCurrent?)
      ensures Passed(old(script), script, settled && out.RotateDied?) && (Commits(old(script)) == 0 ==> source == old(source))
      ensures settled && out.RotateRaised? && Faults(old(script)) <= 1 ==> receipts == old(receipts)
    {
      hide Faults, Deaths, Commits;
      out := RotateRaised(false);
      var step, interrupt := Probe();
      if step != Done { return true, Stopped(step, interrupt); }
      if !Ready(Value(), expected) { return false, out; }
      step, interrupt := AcquireSlot();
      if step != Done { return true, Stopped(step, interrupt); }
      if !Ready(Value(), expected) { held := false; return false, out; }
      step, interrupt := OnVerified(batch, attempt, expected, false);
      held := false;
      return true, if step == Done then PreservedCurrent else Stopped(step, interrupt);
    }

    /** Put the old bundle back if it was exchanged away, then delete the candidate,
        unless the flag says that the old bundle is still beside the anchor. */
    method RollBack(ghost before: Store, ghost candidate: Bundle, name: Name, previous: Bundle, wasSwapped: bool, ghost gap: bool)
      returns (died: bool)
      requires name !in before.superseded && before.anchor == Some(previous) && (wasSwapped ==> !gap)
      requires if wasSwapped || gap then anchor == Some(candidate) && superseded == before.superseded[name := previous]
               else anchor == Some(previous) && superseded == before.superseded[name := candidate]
      modifies this`source, this`script, this`superseded, this`anchor, this`held
      ensures !held
      ensures !gap ==>
                var exchanged := wasSwapped && TakesEffect(Next(old(script)).fault);
                var deletes := if wasSwapped then Next(Later(old(script))).fault else Next(old(script)).fault;
                && anchor == (if wasSwapped && !exchanged then Some(candidate) else Some(previous))
                && superseded == (if wasSwapped && !exchanged then before.superseded[name := previous]
                                  else if wasSwapped && Next(old(script)).fault == RaisesAfter then before.superseded[name := candidate]
                                  else if TakesEffect(deletes) then before.superseded
                                  else before.superseded[name := candidate])
      ensures gap ==>
                && anchor == Some(candidate)
                && superseded == if Next(old(script)).fault in {Completes, RaisesAfter} then before.superseded
                                 else before.superseded[name := previous]
      ensures Passed(old(script), script, died)
      ensures !gap && Faults(old(script)) == 0 ==> anchor == Some(previous) && superseded == before.superseded
    {
      hide Faults, Deaths, Commits;
      AddedThenRemoved(before.superseded, name, candidate);
      AddedThenRemoved(before.superseded, name, previous);
      var swapped := wasSwapped;
      if swapped {
        var h := Tick();
        if h.fault == Dies { held := false; return true; }
        if h.fault != RaisesBefore {
          anchor, superseded := Some(previous), superseded[name := anchor.value];
          // An exception right here leaves the flag set, so nothing is deleted.
          swapped := h.fault == RaisesAfter;
        }
      }
      held := false;
      if !swapped {
        var h := Tick();
        if h.fault == Dies { return true; }
        if h.fault != RaisesBefore { superseded := superseded - {name}; }
      }
      return false;
    }

    /** Take the writer slot, re-check the candidate, exchange the directories. */
    method Exchange(name: Name, previous: Bundle, expected: nat)
      returns (step: Step, interrupt: bool, swapped: bool, ghost gap: bool)
      requires !held && name in superseded && anchor == Some(previous)
      modifies this`source, this`script, this`superseded, this`anchor, this`held
      ensures step == Done ==> held && swapped && anchor.Some? && CurrentFor(anchor.value, source, expected)
      ensures swapped ==> step == Done
      ensures swapped || gap ==> anchor == Some(old(superseded)[name]) && superseded == old(superseded)[name := previous]
      ensures !swapped && !gap ==> anchor == old(anchor) && superseded == old(superseded)
      ensures gap ==> step == Raised && script == Later(Later(old(script)))
      ensures gap <==> GapOpens(old(superseded)[name], old(source), old(script), expected)
      ensures old(script) == [] && CurrentFor(old(superseded)[name], old(source), expected) ==>
                step == Done && script == [] && source == old(source)
      ensures Passed(old(script), script, step == Died) && (Commits(old(script)) == 0 ==> source == old(source))
      ensures step == Done ==> Faults(script) == Faults(old(script))
      ensures step == Raised && Commits(old(script)) == 0 && CurrentFor(old(superseded)[name], old(source), expected) ==>
                Faults(script) < Faults(old(script))
    {
      hide Faults, Deaths, Commits;
      swapped, gap := false, false;
      step, interrupt := AcquireSlot();
      if step != Done { return; }
      if !CurrentFor(superseded[name], source, expected) { step := Raised; return; }
      var h := Tick();
      interrupt := h.interrupt;
      step := Felt(h);
      if h.fault == Dies || h.fault == RaisesBefore { return; }
      anchor, superseded := Some(superseded[name]), superseded[name := previous];
      swapped := h.fault == Completes;
      gap := h.fault == RaisesAfter;
    }

    /** From an owned candidate: exchange, verify, call back, commit, or roll back. */
    method ExchangeAndSeal(ghost before: Store, ghost candidate: Bundle, batch: BatchId, attempt: Attempt, expected: nat,
                           name: Name, previous: Bundle)
      returns (out: RotateOutcome, ghost gap: bool)
      requires !held && batch !in receipts && before.anchor == Some(previous) && anchor == before.anchor
      requires name !in before.superseded && superseded == before.superseded[name := candidate]
      modifies this`source, this`script, this`superseded, this`anchor, this`receipts, this`held
      ensures !held
      ensures receipts == old(receipts) ||
              (batch in receipts && WrittenReceipt(attempt, receipts[batch]) && receipts[batch].verdict == Sealed &&
               receipts == old(receipts)[batch := receipts[batch]])
      ensures !gap ==>
                || (anchor == Some(previous) && superseded == before.superseded)
                || (anchor == Some(previous) && superseded == before.superseded[name := candidate])
                || (anchor == Some(candidate) && superseded == before.superseded[name := previous])
      ensures gap <==> GapOpens(candidate, old(source), old(script), expected)
      ensures gap ==> anchor == Some(candidate)
      ensures gap ==> superseded == if Next(Later(Later(old(script)))).fault in {Completes, RaisesAfter}
                                    then before.superseded else before.superseded[name := previous]
      ensures !out.PreservedCurrent?
      ensures out.Rotated? ==> !gap && anchor == Some(candidate) && superseded == before.superseded[name := previous]
                               && receipts == old(receipts)[batch := Receipt(attempt, Sealed, Some(candidate.digest), true)]
      ensures old(script) == [] && CurrentFor(candidate, old(source), expected) &&
              CurrentFingerprint(old(source)) == attempt.fingerprint ==>
                script == [] && source == old(source) && out.Rotated?
      ensures Passed(old(script), script, out.RotateDied?)
      ensures out.RotateRaised? && !gap
              && (Faults(old(script)) == 0 ||
                  (Faults(old(script)) <= 1 && Commits(old(script)) == 0 && CurrentFor(candidate, old(source), expected)
                   && CurrentFingerprint(old(source)) == attempt.fingerprint)) ==>
                anchor == Some(previous) && superseded == before.superseded && receipts == old(receipts)
    {
      hide Faults, Deaths, Commits;
      var step, interrupt, swapped;
      step, interrupt, swapped, gap := Exchange(name, previous, expected);
      if step == Done { step, interrupt := Probe(); }
      if step == Done { step, interrupt := OnVerified(batch, attempt, expected, true); }
      if step == Done { held := false; return Rotated, gap; }
      if step == Died { held := false; return RotateDied, gap; }
      var died := RollBack(before, candidate, name, previous, swapped, gap);
      return if died then RotateDied else RotateRaised(interrupt), gap;
    }

    /** `rotate_recovery_anchor` with the sealing callback.  Every bundle is kept, except
        exactly when `RotationLoses` says so of the call: an exception between the forward
        exchange and the assignment of its `swapped` flag, and a cleanup that succeeds. */
    method Rotate(batch: BatchId, attempt: Attempt, expected: nat, name: Name, layout: nat)
      returns (out: RotateOutcome)
      requires !held && batch !in receipts
      modifies this`source, this`script, this`superseded, this`anchor, this`receipts, this`held
      ensures !held
      ensures receipts == old(receipts) ||
              (batch in receipts && WrittenReceipt(attempt, receipts[batch]) && receipts[batch].verdict == Sealed &&
               receipts == old(receipts)[batch := receipts[batch]])
      ensures Evidence(old(Value())) <= Evidence(Value()) <==>
                !RotationLoses(old(Value()), old(script), expected, name, layout)
      ensures !RotationGap(old(Value()), old(script), expected, name, layout) ==>
                AnchorKept(old(Value()), Value(), name) || AnchorSwapped(old(Value()), Value(), name)
      ensures out.Rotated? ==> AnchorSwapped(old(Value()), Value(), name)
      ensures out.PreservedCurrent? ==> anchor == old(anchor) && superseded == old(superseded)
      ensures out.Rotated? || out.PreservedCurrent? ==>
                batch in receipts && anchor.Some? && receipts[batch].anchor == Some(anchor.value.digest)
      ensures old(script) == [] && CurrentFingerprint(old(source)) == attempt.fingerprint ==>
                && script == []
                && if Ready(old(Value()), expected) || Rotatable(old(Value()), expected, name)
                   then (out.Rotated? || out.PreservedCurrent?) && batch in receipts
                        && CalmAttempt(old(Value()), Value(), batch, attempt, expected, name, layout,
                                       SealReturned(receipts[batch], false))
                   else out == RotateRaised(false) && Value() == old(Value())
      ensures Passed(old(script), script, out.RotateDied?)
      ensures out.RotateRaised? && !RotationGap(old(Value()), old(script), expected, name, layout)
              && (Faults(old(script)) == 0 ||
                  (Faults(old(script)) <= 1 && Commits(old(script)) == 0
                   && CurrentFingerprint(old(source)) == attempt.fingerprint)) ==>
                anchor == old(anchor) && superseded == old(superseded) && receipts == old(receipts)
    {
      hide Evidence, CandidateNeeded, ReplaceGap, ReplaceLoses, Faults, Deaths, Commits;
      var settled;
      ghost var start, faults := Value(), script;
      settled, out := PreserveCurrent(batch, attempt, expected);
      SameAnchorsSameEvidence(start, Value());
      if settled { return; }
      if anchor.None? || !RotationEvidence(anchor.value, expected) || name in superseded {
        return RotateRaised(false);
      }
      ghost var before := Value();
      out := Replace(batch, attempt, expected, name, layout);
      assert before == start.(source := before.source);
    }

    /** Make a candidate, exchange it for the anchor and call back. */
    method Replace(batch: BatchId, attempt: Attempt, expected: nat, name: Name, layout: nat) returns (out: RotateOutcome)
      requires !held && batch !in receipts && Replaceable(Value(), expected, name)
      modifies this`source, this`script, this`superseded, this`anchor, this`receipts, this`held
      ensures !held && !out.PreservedCurrent?
      ensures receipts == old(receipts) ||
              (batch in receipts && WrittenReceipt(attempt, receipts[batch]) && receipts[batch].verdict == Sealed &&
               receipts == old(receipts)[batch := receipts[batch]])
      ensures Evidence(old(Value())) <= Evidence(Value()) <==> !ReplaceLoses(old(Value()), old(script), expected, layout)
      ensures !ReplaceGap(old(source), old(script), expected, layout) ==>
                AnchorKept(old(Value()), Value(), name) || AnchorSwapped(old(Value()), Value(), name)
      ensures out.Rotated? ==>
                && AnchorSwapped(old(Value()), Value(), name)
                && batch in receipts && receipts[batch].anchor == Some(anchor.value.digest)
      ensures old(script) == [] && CurrentFingerprint(old(source)) == attempt.fingerprint ==>
                && script == [] && source == old(source)
                && if source.version == expected
                   then
                     && out.Rotated? && anchor == Some(Bundle(Digest(source, layout), true))
                     && superseded == old(superseded)[name := old(anchor).value]
                     && receipts == old(receipts)[batch := Receipt(attempt, Sealed, Some(Digest(source, layout)), true)]
                   else out == RotateRaised(false) && Value() == old(Value())
      ensures Passed(old(script), script, out.RotateDied?)
      ensures out.RotateRaised? && !ReplaceGap(old(source), old(script), expected, layout)
              && (Faults(old(script)) == 0 ||
                  (Faults(old(script)) <= 1 && Commits(old(script)) == 0
                   && CurrentFingerprint(old(source)) == attempt.fingerprint)) ==>
                anchor == old(anchor) && superseded == old(superseded) && receipts == old(receipts)
    {
      hide Evidence, CandidateMade, StepOn, GapOpens, Faults, Deaths, Commits;
      var previous := anchor.value;
      ghost var before := Value();
      var step, interrupt := CreateCandidate(name, layout, expected);
      if step != Done {
        RotationKeepsEvidence(before, Value(), name);
        return Stopped(step, interrupt);
      }
      ghost var gap, copied := false, Value();
      out, gap := ExchangeAndSeal(copied.(superseded := before.superseded), superseded[name], batch, attempt, expected, name,
                                  previous);
      if gap {
        EvidenceAfterRotation(before, Value(), name, superseded == before.superseded);
      } else {
        RotationKeepsEvidence(before, Value(), name);
      }
    }

    function Stopped(step: Step, interrupt: bool): RotateOutcome {
      if step == Died then RotateDied else RotateRaised(interrupt)
    }

    // ---- Sealing ------------------------------------------------------------------

    /** A sealed receipt is believed only while the source still has the sealed
        fingerprint and the ready anchor is the one named. */
    method AssertCurrentSealed(r: Receipt, expected: nat) returns (step: Step)
      modifies this`source, this`script
      ensures held ==> source == old(source)
      ensures step == Done && r.verdict == Sealed ==>
                Ready(Value(), expected) && r.anchor == Some(anchor.value.digest)
      ensures step == Done && r.verdict == Sealed && WrittenReceipt(r.attempt, r) ==>
                CurrentFingerprint(source) == r.attempt.fingerprint
      ensures old(script) == [] ==> script == [] && source == old(source)
      ensures old(script) == [] ==> step != Died
      ensures old(script) == [] ==>
                (step == Done <==> (r.verdict == Sealed ==> NowSealed(Value(), r, expected)))
      ensures Passed(old(script), script, step == Died) && (Commits(old(script)) == 0 ==> source == old(source))
      ensures step == Done ==> Faults(script) == Faults(old(script))
    {
      if r.verdict != Sealed { return Done; }
      var interrupt;
      step, interrupt := Probe();
      if step != Done { return; }
      if SchemaOf(source, r.attempt.fingerprint, expected) == NoSchema { return Raised; }
      step, interrupt := Probe();
      if step != Done { return; }
      if anchor.None? || r.anchor != Some(anchor.value.digest) { return Raised; }
      if !Ready(Value(), expected) { return Raised; }
    }

    /** `_best_effort_anchor`: whatever is raised while looking is swallowed. */
    method BestEffortAnchor() returns (died: bool, digest: Option<Digest>)
      modifies this`source, this`script
      ensures old(script) == [] ==>
                && !died && script == [] && source == old(source)
                && digest == if anchor.Some? then Some(anchor.value.digest) else None
      ensures Passed(old(script), script, died)
    {
      var step, _ := Probe();
      died := step == Died;
      digest := if step == Done && anchor.Some? then Some(anchor.value.digest) else None;
    }

    method PublishUnsealed(batch: BatchId, attempt: Attempt, reason: Reason) returns (step: Step)
      requires batch !in receipts
      modifies this`source, this`script, this`receipts
      ensures receipts == old(receipts) ||
              (batch in receipts && WrittenReceipt(attempt, receipts[batch]) &&
               receipts == old(receipts)[batch := receipts[batch]])
      ensures step == Done ==> batch in receipts
      ensures batch in receipts ==> receipts[batch].verdict == Unsealed(reason)
      ensures old(script) == [] ==>
                && step == Done && script == [] && source == old(source)
                && receipts == old(receipts)[batch := UnsealedReceipt(Value(), attempt, reason)]
      ensures Passed(old(script), script, step == Died)
    {
      var died, digest := BestEffortAnchor();
      if died { return Died; }
      var interrupt;
      step, interrupt := PublishReceipt(batch, Receipt(attempt, Unsealed(reason), digest, false));
    }

    /** Make the batch directory, within the capacity of the seal root. */
    method OpenBatch(batch: BatchId) returns (step: Step)
      modifies this`source, this`script, this`batches
      ensures old(batches) <= batches <= old(batches) + {batch} && (step == Done ==> batch in batches)
      ensures !held ==> BatchOpened(old(Value()), batch, old(script)) == if step == Done then At(source, script) else Ended
      ensures old(script) == [] ==>
                && script == [] && source == old(source)
                && step != Died && (step == Done <==> batch in old(batches) || |old(batches)| < MAX_BATCHES)
      ensures Passed(old(script), script, step == Died) && (Commits(old(script)) == 0 ==> source == old(source))
      ensures step == Done ==> Faults(script) == Faults(old(script))
      ensures batch in batches <==>
                || batch in old(batches)
                || (|old(batches)| < MAX_BATCHES && Next(old(script)).fault in {Completes, RaisesAfter})
    {
      if batch in batches { return Done; }
      if |batches| >= MAX_BATCHES { return Raised; }
      var h := Tick();
      if h.fault == Completes || h.fault == RaisesAfter { batches := batches + {batch}; }
      return Felt(h);
    }

    /** Reuse the batch's immutable attempt, or bind a new one to the live source. */
    method OpenAttempt(batch: BatchId, owner: Owner, now: nat) returns (step: Step, attempt: Attempt)
      modifies this`source, this`script, this`attempts
      ensures attempts == old(attempts) ||
              (batch !in old(attempts) && batch in attempts && attempts == old(attempts)[batch := attempts[batch]])
      ensures step == Done ==> batch in attempts && attempts[batch] == attempt && attempt.owner == owner
      ensures !held ==>
                AttemptOpened(old(attempts), batch, owner, old(source), old(script))
                == if step == Done then At(source, script) else Ended
      ensures !held && step == Done ==>
                attempt.fingerprint == AttemptedFingerprint(old(attempts), batch, old(source), old(script))
      ensures old(script) == [] ==>
                && script == [] && source == old(source)
                && (step == Done <==> (batch in old(attempts) ==> old(attempts)[batch].owner == owner))
                && step != Died
                && (step == Done ==>
                      && attempt == AttemptFor(old(Value()), batch, owner, now)
                      && attempts == old(attempts)[batch := attempt])
      ensures Passed(old(script), script, step == Died) && (Commits(old(script)) == 0 ==> source == old(source))
      ensures step == Done ==> Faults(script) == Faults(old(script))
    {
      if batch in attempts {
        return if attempts[batch].owner == owner then Done else Raised, attempts[batch];
      }
      var interrupt;
      step, interrupt := Probe();
      attempt := Attempt(owner, now, CurrentFingerprint(source));
      if step == Done { step := PublishAttempt(batch, attempt); }
    }

    /** `seal_recovery_batch`. */
    method Seal(batch: BatchId, owner: Owner, expected: nat, name: Name, layout: nat, now: nat)
      returns (out: SealOutcome)
      requires !held
      modifies this
      ensures !held
      ensures SealStep(old(Value()), Value(), batch, owner, expected, out)
      ensures Evidence(old(Value())) <= Evidence(Value()) <==>
                !SealLoses(old(Value()), batch, owner, expected, name, layout, old(script))
      ensures old(script) == [] ==> CalmSeal(old(Value()), Value(), batch, owner, expected, name, layout, now, out)
      ensures Passed(old(script), script, out.SealDied?)
    {
      hide Evidence, FreshLoses, StepOn, Ready, BatchOpened, SchemaOf, NowSealed, CalmAttempt, SealStep, CalmSeal;
      ghost var start := Value();
      if owner == Unauthorized {
        RecordsAlone(start, start, batch, owner, expected, name, layout, now, SealRaised);
        return SealRaised;
      }
      var step := OpenBatch(batch);
      SameAnchorsSameEvidence(start, Value());
      if step != Done {
        RecordsAlone(start, Value(), batch, owner, expected, name, layout, now, Failure(step));
        return Failure(step);
      }
      if batch in receipts {
        out := Replay(batch, owner, expected);
        RecordsAlone(start, Value(), batch, owner, expected, name, layout, now, out);
        SameAnchorsSameEvidence(start, Value());
        return;
      }
      ghost var open, faults := Value(), script;
      out := SealFresh(batch, owner, expected, name, layout, now);
      BatchOpenedFirst(start, open, Value(), batch, owner, expected, name, layout, now, out);
      BatchesDoNotLose(start.(source := open.source), open, batch, owner, expected, name, layout, faults);
    }

    /** The receipt again, to its owner, while it is unsealed or still true. */
    method Replay(batch: BatchId, owner: Owner, expected: nat) returns (out: SealOutcome)
      requires !held && batch in batches && batch in receipts
      modifies this`source, this`script
      ensures out.SealReturned? ==>
                && out == SealReturned(receipts[batch], true) && receipts[batch].attempt.owner == owner
                && (receipts[batch].verdict == Sealed ==>
                      Ready(Value(), expected) && receipts[batch].anchor == Some(anchor.value.digest))
      ensures old(script) == [] ==>
                && source == old(source)
                && out == if receipts[batch].attempt.owner != owner
                             || (receipts[batch].verdict == Sealed && !NowSealed(Value(), receipts[batch], expected))
                          then SealRaised else SealReturned(receipts[batch], true)
      ensures Passed(old(script), script, out.SealDied?)
    {
      hide Ready, NowSealed;
      if receipts[batch].attempt.owner != owner { return SealRaised; }
      var step := AssertCurrentSealed(receipts[batch], expected);
      out := Conclude(step, receipts[batch], true);
    }

    /** The attempt and its one receipt, in an open batch. */
    method SealFresh(batch: BatchId, owner: Owner, expected: nat, name: Name, layout: nat, now: nat)
      returns (out: SealOutcome)
      requires !held && owner != Unauthorized && batch in batches && batch !in receipts
      modifies this
      ensures !held
      ensures SealStep(old(Value()), Value(), batch, owner, expected, out)
      ensures Evidence(old(Value())) <= Evidence(Value()) <==>
                !FreshLoses(old(Value()), batch, owner, expected, name, layout, old(script))
      ensures old(script) == [] ==> CalmSeal(old(Value()), Value(), batch, owner, expected, name, layout, now, out)
      ensures Passed(old(script), script, out.SealDied?)
    {
      hide Evidence, AttemptLoses, StepOn, Ready, AttemptOpened, AttemptedFingerprint, SchemaOf, NowSealed, CalmAttempt;
      ghost var start := Value();
      var step, attempt := OpenAttempt(batch, owner, now);
      SameAnchorsSameEvidence(start, Value());
      if step != Done { return Failure(step); }
      ghost var attempted, faults := Value(), script;
      out := SealAttempt(batch, attempt, expected, name, layout);
      OnlyAnchorsDecide(start.(source := attempted.source), attempted, attempt.fingerprint, expected, name, layout, faults);
      FreshSealStep(start, attempted, Value(), batch, attempt, expected, out);
    }

    /** A rotation that raised still leaves a terminal receipt: the sealed one if it
        survived, an unsealed one otherwise.  An interrupt is raised again afterwards. */
    method RecordFailedRotation(batch: BatchId, attempt: Attempt, interrupt: bool, expected: nat) returns (out: SealOutcome)
      requires !held && (batch in receipts ==> WrittenReceipt(attempt, receipts[batch]))
      modifies this`source, this`script, this`receipts
      ensures batch in old(receipts) ==> receipts == old(receipts)
      ensures receipts == old(receipts) ||
              (batch in receipts && WrittenReceipt(attempt, receipts[batch]) &&
               receipts == old(receipts)[batch := receipts[batch]])
      ensures batch in receipts && batch !in old(receipts) ==>
                receipts[batch].verdict == Unsealed(if interrupt then SealInterrupted else RotationFailed)
      ensures interrupt ==> !out.SealReturned?
      ensures out.SealReturned? ==>
                && batch in receipts && out == SealReturned(receipts[batch], false)
                && (receipts[batch].verdict == Sealed ==>
                      Ready(Value(), expected) && receipts[batch].anchor == Some(anchor.value.digest))
      ensures old(script) == [] ==>
                (out.SealReturned? <==>
                   && !interrupt
                   && (batch in old(receipts) && old(receipts)[batch].verdict == Sealed ==>
                         NowSealed(Value(), old(receipts)[batch], expected)))
      ensures old(script) == [] && batch !in old(receipts) && !interrupt ==>
                && source == old(source)
                && receipts == old(receipts)[batch := UnsealedReceipt(old(Value()), attempt, RotationFailed)]
      ensures Passed(old(script), script, out.SealDied?)
    {
      var step;
      if batch in receipts {
        step := AssertCurrentSealed(receipts[batch], expected);
      } else {
        step := PublishUnsealed(batch, attempt, if interrupt then SealInterrupted else RotationFailed);
      }
      if step != Done { return Failure(step); }
      return if interrupt then SealRaised else SealReturned(receipts[batch], false);
    }

    /** From a published attempt to its one terminal receipt. */
    method SealAttempt(batch: BatchId, attempt: Attempt, expected: nat, name: Name, layout: nat)
      returns (out: SealOutcome)
      requires !held && batch !in receipts
      modifies this`source, this`script, this`superseded, this`anchor, this`receipts, this`held
      ensures !held
      ensures receipts == old(receipts) ||
              (batch in receipts && WrittenReceipt(attempt, receipts[batch]) &&
               receipts == old(receipts)[batch := receipts[batch]])
      ensures Evidence(old(Value())) <= Evidence(Value()) <==>
                !AttemptLoses(old(Value()), attempt.fingerprint, expected, name, layout, old(script))
      ensures out.SealReturned? ==>
                && batch in receipts && out == SealReturned(receipts[batch], false)
                && (receipts[batch].verdict == Sealed ==>
                      Ready(Value(), expected) && receipts[batch].anchor == Some(anchor.value.digest))
      ensures old(script) == [] ==> CalmAttempt(old(Value()), Value(), batch, attempt, expected, name, layout, out)
      ensures Passed(old(script), script, out.SealDied?)
      ensures batch in receipts ==>
                (receipts[batch].verdict == Unsealed(FingerprintUnavailable) <==> Felt(Next(old(script))) == Raised)
    {
      hide Evidence, RotationLoses, Ready, NowSealed;
      ghost var start := Value();
      var step, interrupt := Probe();
      SameAnchorsSameEvidence(start, Value());
      if step == Died { return SealDied; }
      var schema := SchemaOf(source, attempt.fingerprint, expected);
      if step == Raised || schema != CurrentSchema {
        step := PublishUnsealed(batch, attempt,
                                if step == Raised then FingerprintUnavailable
                                else if schema == LegacySchema then FingerprintLegacy else SourceChanged);
        SameAnchorsSameEvidence(start, Value());
        if step != Done { return Failure(step); }
        return SealReturned(receipts[batch], false);
      }
      out := SealByRotation(batch, attempt, expected, name, layout);
    }

    /** The fingerprint is current: rotate, and record whatever comes of it. */
    method SealByRotation(batch: BatchId, attempt: Attempt, expected: nat, name: Name, layout: nat)
      returns (out: SealOutcome)
      requires !held && batch !in receipts
      modifies this`source, this`script, this`superseded, this`anchor, this`receipts, this`held
      ensures !held
      ensures receipts == old(receipts) ||
              (batch in receipts && WrittenReceipt(attempt, receipts[batch]) &&
               receipts == old(receipts)[batch := receipts[batch]])
      ensures Evidence(old(Value())) <= Evidence(Value()) <==>
                !RotationLoses(old(Value()), old(script), expected, name, layout)
      ensures out.SealReturned? ==>
                && batch in receipts && out == SealReturned(receipts[batch], false)
                && (receipts[batch].verdict == Sealed ==>
                      Ready(Value(), expected) && receipts[batch].anchor == Some(anchor.value.digest))
      ensures old(script) == [] && CurrentFingerprint(old(source)) == attempt.fingerprint ==>
                CalmAttempt(old(Value()), Value(), batch, attempt, expected, name, layout, out)
      ensures Passed(old(script), script, out.SealDied?)
      ensures batch in receipts ==> receipts[batch].verdict != Unsealed(FingerprintUnavailable)
    {
      hide Evidence, RotationLoses, RotationGap, Ready, SchemaOf, NowSealed, AnchorKept, AnchorSwapped, CalmAttempt;
      ghost var start, faults := Value(), script;
      var rotation := Rotate(batch, attempt, expected, name, layout);
      ghost var rotated := Value();
      if faults == [] && CurrentFingerprint(start.source) == attempt.fingerprint {
        CalmRotationIsTrue(start, rotated, batch, attempt, expected, name, layout);
      }
      match rotation {
        case RotateDied => return SealDied;
        case RotateRaised(interrupted) =>
          out := RecordFailedRotation(batch, attempt, interrupted, expected);
          SameAnchorsSameEvidence(rotated, Value());
          if faults == [] && CurrentFingerprint(start.source) == attempt.fingerprint {
            CalmFailureIsRecorded(start, Value(), batch, attempt, expected, name, layout, out);
          }
        case _ =>
          var step := AssertCurrentSealed(receipts[batch], expected);
          SameAnchorsSameEvidence(rotated, Value());
          return Conclude(step, receipts[batch], false);
      }
    }

    function Failure(step: Step): SealOutcome { if step == Died then SealDied else SealRaised }

    function Conclude(step: Step, r: Receipt, replayed: bool): SealOutcome {
      if step == Done then SealReturned(r, replayed) else Failure(step)
    }
  }
}
