// Recovery anchors, seal attempts and terminal receipts as values, the contract of
// one rotation and of one sealing call, and what follows over every run of calls.

module RecoveryEvidence {
  import opened Common

  /** Source database: schema version and semantic content, both hashed injectively. */
  datatype Content = Content(version: nat, body: nat)

  /** V1 (legacy) hashes the content without the schema version. */
  datatype Fingerprint = V1(body: nat) | V2(version: nat, body: nat)

  function CurrentFingerprint(c: Content): Fingerprint { V2(c.version, c.body) }

  datatype FingerprintSchema = CurrentSchema | LegacySchema | NoSchema

  function SchemaOf(source: Content, f: Fingerprint, expected: nat): FingerprintSchema {
    if f == CurrentFingerprint(source) then CurrentSchema
    else if source.version == expected && f == V1(source.body) then LegacySchema
    else NoSchema
  }

  /** The file digest of a bundle: its content plus the byte layout of that backup. */
  datatype Digest = Digest(content: Content, layout: nat)

  /** A published anchor directory; `intact` is the verdict of every check on the
      bundle itself other than its schema version. */
  datatype Bundle = Bundle(digest: Digest, intact: bool)

  predicate Verifies(b: Bundle, expected: nat) { b.intact && b.digest.content.version == expected }

  predicate CurrentFor(b: Bundle, source: Content, expected: nat) {
    Verifies(b, expected) && b.digest.content == source
  }

  /** Valid now, or valid for an older schema than the live one. */
  predicate RotationEvidence(b: Bundle, expected: nat) {
    b.intact && b.digest.content.version <= expected
  }

  /** A current fingerprint tells a content apart from every other, its schema included; a
      legacy one tells the body only, and is read only under the expected schema. */
  lemma SchemaIsExact(source: Content, other: Content, f: Fingerprint, expected: nat)
    ensures CurrentFingerprint(source) == CurrentFingerprint(other) <==> source == other
    ensures SchemaOf(source, f, expected) == CurrentSchema <==> f.V2? && Content(f.version, f.body) == source
    ensures SchemaOf(source, f, expected) == LegacySchema <==> f == V1(source.body) && source.version == expected
  {
  }

  /** A bundle may be rotated out exactly if it verifies under the expected or an older schema. */
  lemma EvidenceOfSomeSchema(b: Bundle, expected: nat)
    ensures RotationEvidence(b, expected) <==> exists v: nat :: v <= expected && Verifies(b, v)
  {
    if RotationEvidence(b, expected) { assert Verifies(b, b.digest.content.version); }
  }

  type BatchId = nat
  type Name = nat
  datatype Owner = Cc | Codex | Unauthorized

  datatype Attempt = Attempt(owner: Owner, startedAt: nat, fingerprint: Fingerprint)

  /** Why a batch was not sealed.  `RotationFailed` stands for every I/O, protocol and
      verification error that the rotation raises. */
  datatype Reason = FingerprintUnavailable | FingerprintLegacy | SourceChanged | SealInterrupted | RotationFailed

  datatype Verdict = Sealed | Unsealed(reason: Reason)

  datatype Receipt = Receipt(
    attempt: Attempt, verdict: Verdict, anchor: Option<Digest>, rotated: bool)

  datatype Store = Store(
    source: Content, anchor: Option<Bundle>, superseded: map<Name, Bundle>,
    batches: set<BatchId>, attempts: map<BatchId, Attempt>, receipts: map<BatchId, Receipt>)

  predicate Ready(s: Store, expected: nat) {
    s.anchor.Some? && CurrentFor(s.anchor.value, s.source, expected)
  }

  // ---- Relations between the store before and after -------------------------------

  predicate SameButSource(a: Store, b: Store) { b == a.(source := b.source) }

  /** The anchor is where it was; at most a candidate copy is left beside it. */
  predicate AnchorKept(a: Store, b: Store, name: Name) {
    && b.anchor == a.anchor
    && (b.superseded == a.superseded ||
        (name !in a.superseded && name in b.superseded && b.superseded == a.superseded[name := b.superseded[name]]))
  }

  /** The old bundle sits at the superseded path and a new one is the anchor. */
  predicate AnchorSwapped(a: Store, b: Store, name: Name) {
    && a.anchor.Some? && b.anchor.Some? && name !in a.superseded
    && b.superseded == a.superseded[name := a.anchor.value]
  }

  /** Every bundle that exists as recovery evidence. */
  function Evidence(s: Store): set<Bundle> {
    (if s.anchor.Some? then {s.anchor.value} else {}) + s.superseded.Values
  }

  lemma RotationKeepsEvidence(a: Store, b: Store, name: Name)
    requires AnchorKept(a, b, name) || AnchorSwapped(a, b, name)
    ensures Evidence(a) <= Evidence(b)
  {
    forall x | x in Evidence(a) ensures x in Evidence(b) {
      if a.anchor.Some? && x == a.anchor.value {
        if AnchorSwapped(a, b, name) { assert b.superseded[name] == x; }
      } else {
        var n :| n in a.superseded && a.superseded[n] == x;
        assert n in b.superseded && b.superseded[n] == x;
      }
    }
  }

  datatype SealOutcome = SealReturned(receipt: Receipt, replayed: bool) | SealRaised | SealDied

  /** What one sealing call may do to attempts and receipts, and what it may answer,
      whatever faults and writers it meets. */
  predicate SealStep(a: Store, b: Store, batch: BatchId, owner: Owner, expected: nat, out: SealOutcome) {
    && a.batches <= b.batches <= a.batches + {batch} && (out.SealReturned? ==> batch in b.batches)
    && a.attempts.Keys <= b.attempts.Keys <= a.attempts.Keys + {batch}
    && a.receipts.Keys <= b.receipts.Keys <= a.receipts.Keys + {batch}
    && (forall k :: k in a.attempts ==> b.attempts[k] == a.attempts[k])
    && (forall k :: k in a.receipts ==> b.receipts[k] == a.receipts[k])
    && (batch in b.receipts && batch !in a.receipts ==>
          batch in b.attempts && WrittenReceipt(b.attempts[batch], b.receipts[batch]))
    && (batch in a.receipts ==> SameButSource(a.(batches := b.batches), b))
    && (out.SealReturned? ==>
          && batch in b.receipts && out.receipt == b.receipts[batch] && out.receipt.attempt.owner == owner
          && (out.replayed <==> batch in a.receipts)
          && (out.receipt.verdict == Sealed ==>
                Ready(b, expected) && out.receipt.anchor == Some(b.anchor.value.digest)))
  }

  /** A receipt repeats its attempt; a sealed one names an anchor of exactly the
      attempted source. */
  predicate WrittenReceipt(attempt: Attempt, r: Receipt) {
    && r.attempt == attempt
    && (r.verdict == Sealed ==>
          r.anchor.Some? && CurrentFingerprint(r.anchor.value.content) == attempt.fingerprint)
  }

  predicate Consistent(s: Store) {
    forall k :: k in s.receipts ==> k in s.attempts && WrittenReceipt(s.attempts[k], s.receipts[k])
  }

  // ---- Undisturbed calls ----------------------------------------------------------------

  const MAX_BATCHES := 1024

  /** The ready anchor is the one named, and the source still has the sealed fingerprint. */
  predicate NowSealed(s: Store, r: Receipt, expected: nat) {
    && Ready(s, expected) && r.anchor == Some(s.anchor.value.digest)
    && SchemaOf(s.source, r.attempt.fingerprint, expected) != NoSchema
  }

  /** An authorized caller, the batch's owner if it has one, and room for the batch. */
  predicate Admitted(s: Store, batch: BatchId, owner: Owner) {
    && owner != Unauthorized
    && (batch in s.batches || |s.batches| < MAX_BATCHES)
    && (batch in s.receipts ==> s.receipts[batch].attempt.owner == owner)
    && (batch !in s.receipts && batch in s.attempts ==> s.attempts[batch].owner == owner)
  }

  predicate Rotatable(s: Store, expected: nat, name: Name) {
    && s.source.version == expected && s.anchor.Some? && RotationEvidence(s.anchor.value, expected)
    && name !in s.superseded
  }

  /** The verdict on an attempt that meets no fault and no writer. */
  function CalmVerdict(s: Store, attempt: Attempt, expected: nat, name: Name): Verdict {
    match SchemaOf(s.source, attempt.fingerprint, expected)
    case LegacySchema => Unsealed(FingerprintLegacy)
    case NoSchema => Unsealed(SourceChanged)
    case CurrentSchema =>
      if Ready(s, expected) || Rotatable(s, expected, name) then Sealed else Unsealed(RotationFailed)
  }

  /** The one receipt that it then leaves, and where the bundles are: rotated exactly when
      sealed over an anchor that was not ready. */
  predicate CalmAttempt(a: Store, b: Store, batch: BatchId, attempt: Attempt, expected: nat, name: Name, layout: nat,
                        out: SealOutcome) {
    var verdict := CalmVerdict(a, attempt, expected, name);
    var rotates := verdict == Sealed && !Ready(a, expected);
    && b == a.(anchor := b.anchor, superseded := b.superseded, receipts := b.receipts)
    && b.anchor == (if rotates then Some(Bundle(Digest(a.source, layout), true)) else a.anchor)
    && (rotates ==> a.anchor.Some? && b.superseded == a.superseded[name := a.anchor.value])
    && (!rotates ==> b.superseded == a.superseded)
    && var digest := if b.anchor.Some? then Some(b.anchor.value.digest) else None;
       && b.receipts == a.receipts[batch := Receipt(attempt, verdict, digest, rotates)]
       && out == SealReturned(Receipt(attempt, verdict, digest, rotates), false)
  }

  /** The attempt that an admitted call works on. */
  function AttemptFor(s: Store, batch: BatchId, owner: Owner, now: nat): Attempt {
    if batch in s.attempts then s.attempts[batch] else Attempt(owner, now, CurrentFingerprint(s.source))
  }

  /** All of an undisturbed call.  A batch with a receipt replays it exactly while that is
      unsealed or still true; every other admitted batch gets its receipt now. */
  predicate CalmSeal(a: Store, b: Store, batch: BatchId, owner: Owner, expected: nat, name: Name, layout: nat, now: nat,
                     out: SealOutcome) {
    if !Admitted(a, batch, owner) then b == a.(batches := b.batches) && out == SealRaised
    else if batch in a.receipts then
      && b == a.(batches := b.batches)
      && out == if a.receipts[batch].verdict == Sealed && !NowSealed(a, a.receipts[batch], expected) then SealRaised
                else SealReturned(a.receipts[batch], true)
    else
      var attempt := AttemptFor(a, batch, owner, now);
      CalmAttempt(a.(batches := b.batches, attempts := a.attempts[batch := attempt]), b, batch, attempt, expected, name,
                  layout, out)
  }

  // ---- Runs -------------------------------------------------------------------------

  /** The fresh names and the time that an undisturbed call used. */
  datatype Calm = Calm(name: Name, layout: nat, now: nat)

  /** A call, or writers and nothing else.  `lost` tells that the call hit the one window
      in which a rotation deletes the bundle that it replaced, `calm` that it met neither a
      fault nor a writer. */
  datatype Event =
    | Call(batch: BatchId, owner: Owner, expected: nat, outcome: SealOutcome, lost: bool, calm: Option<Calm>)
    | Writers

  ghost predicate EventStep(a: Store, b: Store, e: Event) {
    match e
    case Call(batch, owner, expected, out, lost, calm) =>
      && SealStep(a, b, batch, owner, expected, out) && (!lost ==> Evidence(a) <= Evidence(b))
      && (calm.Some? ==> CalmSeal(a, b, batch, owner, expected, calm.value.name, calm.value.layout, calm.value.now, out))
    case Writers => SameButSource(a, b)
  }

  ghost predicate IsRun(stores: seq<Store>, events: seq<Event>) {
    |stores| == |events| + 1 && forall i :: 0 <= i < |events| ==> EventStep(stores[i], stores[i + 1], events[i])
  }

  /** No attempt or receipt is ever changed or removed. */
  lemma {:induction false} NothingIsRewritten(stores: seq<Store>, events: seq<Event>, i: nat, j: nat)
    requires IsRun(stores, events) && i <= j < |stores|
    ensures forall k :: k in stores[i].attempts ==>
              k in stores[j].attempts && stores[j].attempts[k] == stores[i].attempts[k]
    ensures forall k :: k in stores[i].receipts ==>
              k in stores[j].receipts && stores[j].receipts[k] == stores[i].receipts[k]
    ensures stores[i].batches <= stores[j].batches
    decreases j - i
  {
    if i < j {
      assert EventStep(stores[i], stores[i + 1], events[i]);
      NothingIsRewritten(stores, events, i + 1, j);
    }
  }

  /** Bundles are kept over every stretch of a run in which no call loses one. */
  lemma {:induction false} EvidenceIsKept(stores: seq<Store>, events: seq<Event>, i: nat, j: nat)
    requires IsRun(stores, events) && i <= j < |stores|
    requires forall k :: i <= k < j && events[k].Call? ==> !events[k].lost
    ensures Evidence(stores[i]) <= Evidence(stores[j])
    decreases j - i
  {
    if i < j {
      assert EventStep(stores[i], stores[i + 1], events[i]);
      EvidenceIsKept(stores, events, i + 1, j);
    }
  }

  lemma {:induction false} RunsStayConsistent(stores: seq<Store>, events: seq<Event>, j: nat)
    requires IsRun(stores, events) && j < |stores| && Consistent(stores[0])
    ensures Consistent(stores[j])
  {
    if j > 0 {
      RunsStayConsistent(stores, events, j - 1);
      assert EventStep(stores[j - 1], stores[j], events[j - 1]);
    }
  }

  /** Exactly once: every two calls of a run that return for one batch return the
      same receipt, and the later one replays it without touching any anchor. */
  lemma SameReceiptForever(stores: seq<Store>, events: seq<Event>, i: nat, j: nat)
    requires IsRun(stores, events) && i < j < |events|
    requires events[i].Call? && events[j].Call? && events[i].batch == events[j].batch
    requires events[i].outcome.SealReturned? && events[j].outcome.SealReturned?
    ensures events[j].outcome.receipt == events[i].outcome.receipt && events[j].outcome.replayed
    ensures stores[j + 1].anchor == stores[j].anchor && stores[j + 1].superseded == stores[j].superseded
  {
    assert EventStep(stores[i], stores[i + 1], events[i]);
    assert EventStep(stores[j], stores[j + 1], events[j]);
    NothingIsRewritten(stores, events, i + 1, j);
  }

  /** Conversely, after a call has returned, an undisturbed call of the batch's owner is
      answered, and with the same receipt, exactly while that is unsealed or still true: so
      always when neither the source nor the anchor has changed. */
  lemma RepeatedCallReplays(stores: seq<Store>, events: seq<Event>, i: nat, j: nat)
    requires IsRun(stores, events) && i < j < |events|
    requires events[i].Call? && events[j].Call? && events[i].batch == events[j].batch
    requires events[i].owner == events[j].owner != Unauthorized
    requires events[i].outcome.SealReturned? && events[j].calm.Some?
    ensures
      var r := events[i].outcome.receipt;
      events[j].outcome == if r.verdict == Sealed && !NowSealed(stores[j], r, events[j].expected) then SealRaised
                           else SealReturned(r, true)
    ensures Consistent(stores[0]) && events[i].expected == events[j].expected
            && stores[j].source == stores[i + 1].source && stores[j].anchor == stores[i + 1].anchor ==>
              events[j].outcome == SealReturned(events[i].outcome.receipt, true)
  {
    assert EventStep(stores[i], stores[i + 1], events[i]);
    assert EventStep(stores[j], stores[j + 1], events[j]);
    NothingIsRewritten(stores, events, i + 1, j);
    if Consistent(stores[0]) && events[i].outcome.receipt.verdict == Sealed { ReturnedSealIsTheSource(stores, events, i); }
  }

  /** A returned seal means the live source is, at that moment, exactly the content
      that was fingerprinted when the batch was attempted, and the ready anchor holds it. */
  lemma ReturnedSealIsTheSource(stores: seq<Store>, events: seq<Event>, i: nat)
    requires IsRun(stores, events) && Consistent(stores[0]) && i < |events|
    requires events[i].Call? && events[i].outcome.SealReturned? && events[i].outcome.receipt.verdict == Sealed
    ensures Ready(stores[i + 1], events[i].expected)
    ensures CurrentFingerprint(stores[i + 1].source) == events[i].outcome.receipt.attempt.fingerprint
    ensures stores[i + 1].anchor.value.digest.content == stores[i + 1].source
  {
    RunsStayConsistent(stores, events, i + 1);
    assert EventStep(stores[i], stores[i + 1], events[i]);
  }
}
