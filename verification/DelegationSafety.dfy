// One-time grants over whole runs: never replaced, spent exactly by the write they
// authorise, good only for the exact image they name, and granted all or nothing.

module DelegationSafety {
  import opened Common
  import opened ContentTables
  import opened OwnerLedger
  import opened DispositionSafety

  /** Grant ids are unique, and only granted ids are ever spent. */
  ghost predicate GrantsOk(l: Ledger) {
    && (forall r :: r in l.grants ==> l.grants[r].id < l.nextGrant)
    && (forall r, q :: r in l.grants && q in l.grants && l.grants[r].id == l.grants[q].id ==> r == q)
    && (forall g :: g in l.consumed ==> g < l.nextGrant)
  }

  predicate Spent(l: Ledger, r: Resource) { r in l.grants && l.grants[r].id in l.consumed }

  // ---- Manifests ---------------------------------------------------------------------------

  /** Only grants were added, none before this many; the ledger is otherwise the same. */
  ghost predicate OnlyGrantsAdded(l: Ledger, after: Ledger) {
    && after == l.(grants := after.grants, nextGrant := after.nextGrant) && after.nextGrant >= l.nextGrant
    && (forall r :: r in l.grants ==> r in after.grants && after.grants[r] == l.grants[r])
    && (forall r :: r in after.grants && r !in l.grants ==> after.grants[r].id >= l.nextGrant)
  }

  predicate Listed(m: Manifest, n: nat, r: Resource)
    requires n <= |m.items|
  {
    exists i :: 0 <= i < n && m.items[i].resource == r
  }

  lemma ItemGrants(l: Ledger, mid: Ledger, m: Manifest, item: Item)
    requires GrantsOk(mid) && OnlyGrantsAdded(l, mid) && ApplyItem(mid, m, item).Some?
    ensures
      var after := ApplyItem(mid, m, item).value;
      && GrantsOk(after) && OnlyGrantsAdded(l, after) && OnlyGrantsAdded(mid, after) && Granted(after, m, item)
      && (forall r :: r in after.grants && r !in mid.grants ==> r == item.resource)
  {
    hide GrantsOk, Matches, OnlyGrantsAdded;
    var after := ApplyItem(mid, m, item).value;
    if item.resource !in mid.grants { AddGrant(l, mid, item.resource, GrantFor(m, item, mid.nextGrant)); }
    assert OnlyGrantsAdded(mid, mid) by { AddedNothing(mid); }
    SameMatch(mid, after, item);
    MatchIsGrantable(after, item);
  }

  lemma MatchIsGrantable(l: Ledger, item: Item)
    ensures Matches(l, item) <==> Grantable(l, item)
  {
    hide HasTag;
  }

  lemma AddedNothing(l: Ledger)
    ensures OnlyGrantsAdded(l, l)
  {
  }

  lemma SameMatch(mid: Ledger, after: Ledger, item: Item)
    requires after.rows == mid.rows && after.refusals == mid.refusals
    ensures Matches(after, item) == Matches(mid, item)
  {
    hide HasTag, Actionable, OwnerIn;
  }

  lemma AddGrant(l: Ledger, mid: Ledger, r: Resource, g: Grant)
    requires GrantsOk(mid) && OnlyGrantsAdded(l, mid) && r !in mid.grants && g.id == mid.nextGrant
    ensures
      var after := mid.(grants := mid.grants[r := g], nextGrant := mid.nextGrant + 1);
      GrantsOk(after) && OnlyGrantsAdded(l, after) && OnlyGrantsAdded(mid, after)
  {
  }

  lemma StillGranted(mid: Ledger, after: Ledger, m: Manifest, item: Item)
    requires OnlyGrantsAdded(mid, after) && Granted(mid, m, item)
    ensures Granted(after, m, item)
  {
  }

  lemma {:induction false} ItemsGrant(l: Ledger, m: Manifest, n: nat)
    requires GrantsOk(l) && n <= |m.items| && ApplyItems(l, m, n).Some?
    ensures
      var after := ApplyItems(l, m, n).value;
      && GrantsOk(after) && OnlyGrantsAdded(l, after)
      && (forall i :: 0 <= i < n ==> Granted(after, m, m.items[i]))
      && (forall r :: r in after.grants && r !in l.grants ==> Listed(m, n, r))
  {
    hide GrantsOk, Granted, ApplyItem;
    if n > 0 {
      ItemsGrant(l, m, n - 1);
      var mid := ApplyItems(l, m, n - 1).value;
      var after := ApplyItem(mid, m, m.items[n - 1]).value;
      ItemGrants(l, mid, m, m.items[n - 1]);
      forall i | 0 <= i < n - 1 ensures Granted(after, m, m.items[i]) { StillGranted(mid, after, m, m.items[i]); }
      forall r | r in after.grants && r !in l.grants ensures Listed(m, n, r) {
        assert r !in mid.grants ==> m.items[n - 1].resource == r;
        if r in mid.grants {
          assert Listed(m, n - 1, r);
          var i :| 0 <= i < n - 1 && m.items[i].resource == r;
        }
      }
    }
  }

  /** The item names its resource as it is: a shipped row nobody disposed of, or a refusal
      nobody acknowledged, with its owner. */
  predicate Grantable(l: Ledger, item: Item) {
    match item.resource
    case ActivityDisposition(id) =>
      && id in l.rows && item.image == OfRow(id, l.rows[id]) && l.rows[id].source == item.owner
      && HasTag(l.rows[id].tags, "SHIPPED") && l.rows[id].disposition.None? && "PROCESSED" !in l.rows[id].tags
    case SnapshotRefusal(id) =>
      && id in l.refusals && item.image == OfRefusal(id, l.refusals[id]) && l.refusals[id].caller == item.owner
      && l.refusals[id].decision.None?
  }

  /** The grant says what the manifest and its item say. */
  predicate SaysSo(g: Grant, m: Manifest, item: Item) {
    && g.owner == item.owner && g.delegate == m.delegate && g.image == item.image
    && g.reason == m.reason && g.reference == m.reference
  }

  /** The item's resource still has the image asked for, and holds the grant asked for. */
  predicate Granted(l: Ledger, m: Manifest, item: Item) {
    Grantable(l, item) && item.resource in l.grants && SaysSo(l.grants[item.resource], m, item)
  }

  /** All or nothing: either every item of the manifest is granted, none besides, and no
      table but the grants changes; or the database is as it was. */
  lemma ManifestIsAllOrNothing(l: Ledger, m: Manifest)
    requires GrantsOk(l)
    ensures
      var after := Perform(l, ApplyManifest(m));
      || (&& (forall i :: 0 <= i < |m.items| ==> Granted(after, m, m.items[i]))
          && OnlyGrantsAdded(l, after)
          && (forall r :: r in after.grants && r !in l.grants ==> Listed(m, |m.items|, r)))
      || (after == l && ApplyItems(l, m, |m.items|).None?)
  {
    if ApplyItems(l, m, |m.items|).Some? { ItemsGrant(l, m, |m.items|); }
  }

  predicate Blocks(l: Ledger, m: Manifest, item: Item) {
    !Grantable(l, item) || (item.resource in l.grants && !SaysSo(l.grants[item.resource], m, item))
  }

  lemma BlocksLater(l: Ledger, mid: Ledger, m: Manifest, item: Item)
    requires OnlyGrantsAdded(l, mid) && (item.resource in mid.grants ==> item.resource in l.grants)
    ensures ApplyItem(mid, m, item).None? <==> Blocks(l, m, item)
  {
    hide HasTag;
    MatchIsGrantable(l, item);
    MatchIsGrantable(mid, item);
  }

  /** With no resource listed twice, a manifest is rolled back exactly when some item does
      not match its resource, or names one that was already granted differently. */
  lemma {:induction false} ManifestRefusedIffSomeItemBlocks(l: Ledger, m: Manifest, n: nat)
    requires GrantsOk(l) && n <= |m.items|
    requires forall i, k :: 0 <= i < k < |m.items| ==> m.items[i].resource != m.items[k].resource
    ensures ApplyItems(l, m, n).None? <==> exists i :: 0 <= i < n && Blocks(l, m, m.items[i])
  {
    hide GrantsOk, Granted, ApplyItem, Blocks, OnlyGrantsAdded;
    if n > 0 {
      ManifestRefusedIffSomeItemBlocks(l, m, n - 1);
      if ApplyItems(l, m, n - 1).Some? {
        var mid := ApplyItems(l, m, n - 1).value;
        ItemsGrant(l, m, n - 1);
        var item := m.items[n - 1];
        assert item.resource in mid.grants && item.resource !in l.grants ==> Listed(m, n - 1, item.resource);
        BlocksLater(l, mid, m, item);
      }
    }
  }

  // ---- One call ----------------------------------------------------------------------------

  /** The call acts on this resource for someone who does not own it. */
  predicate ActsForAnother(l: Ledger, op: Op, r: Resource) {
    match op
    case RecordDisposition(id, req, _) => r == ActivityDisposition(id) && id in l.rows && l.rows[id].source != req.caller
    case AcknowledgeRefusal(caller, id, _, _) => r == SnapshotRefusal(id) && id in l.refusals && l.refusals[id].caller != caller
    case _ => false
  }

  function ActorOf(op: Op): Caller
    requires op.RecordDisposition? || op.AcknowledgeRefusal?
  {
    if op.RecordDisposition? then op.req.caller else op.caller
  }

  function ActionOf(op: Op): Action
    requires op.RecordDisposition? || op.AcknowledgeRefusal?
  {
    if op.RecordDisposition? then Disposed(op.req.choice) else Acknowledged(op.decision)
  }

  /** A write by someone who is not the owner: it changed the database. */
  predicate DelegatedWrite(l: Ledger, op: Op, r: Resource) { ActsForAnother(l, op, r) && Perform(l, op) != l }

  /** A delegated write happens only under an unspent grant to that caller for the exact
      present image, and spends it in the same transaction with the image it leaves. */
  lemma DelegatedWriteSpendsItsGrant(l: Ledger, op: Op, r: Resource)
    requires DelegatedWrite(l, op, r)
    ensures Present(l, r) && r in l.grants && !Spent(l, r)
    ensures l.grants[r].delegate == ActorOf(op) && l.grants[r].image == ImageOf(l, r)
    ensures
      var after := Perform(l, op);
      && Present(after, r) && after.grants == l.grants && after.nextGrant == l.nextGrant
      && after.consumed == l.consumed[l.grants[r].id := Consumption(ActorOf(op), ActionOf(op), ImageOf(after, r))]
  {
    hide HasTag, NoteFor;
    if op.RecordDisposition? { WrittenTags(l.rows[op.id], op.req, op.now); }
  }

  /** No other call spends anything. */
  lemma OtherCallsSpendNothing(l: Ledger, op: Op)
    requires GrantsOk(l) && forall r :: !DelegatedWrite(l, op, r)
    ensures Perform(l, op).consumed == l.consumed
  {
    hide HasTag, Written, Resolve, DelegatedWrite;
    match op {
      case RecordDisposition(id, req, now) => OnlyDelegatedWritesSpend(l, op, ActivityDisposition(id));
      case AcknowledgeRefusal(caller, id, decision, now) => OnlyDelegatedWritesSpend(l, op, SnapshotRefusal(id));
      case ApplyManifest(m) => ManifestIsAllOrNothing(l, m);
      case _ =>
    }
  }

  lemma PerformKeepsGrants(l: Ledger, op: Op)
    requires GrantsOk(l)
    ensures
      var after := Perform(l, op);
      && GrantsOk(after)
      && (forall r :: r in l.grants ==> r in after.grants && after.grants[r] == l.grants[r])
      && (forall g :: g in l.consumed ==> g in after.consumed && after.consumed[g] == l.consumed[g])
      && (forall r :: r in after.grants && r !in l.grants ==> !Spent(after, r))
  {
    match op {
      case RecordDisposition(id, req, now) => CallKeepsGrants(l, op, ActivityDisposition(id));
      case AcknowledgeRefusal(caller, id, decision, now) => CallKeepsGrants(l, op, SnapshotRefusal(id));
      case ApplyManifest(m) =>
        if ApplyItems(l, m, |m.items|).Some? { ItemsGrant(l, m, |m.items|); }
      case _ =>
    }
  }

  lemma CallKeepsGrants(l: Ledger, op: Op, r: Resource)
    requires GrantsOk(l) && (op.RecordDisposition? || op.AcknowledgeRefusal?)
    requires r == if op.RecordDisposition? then ActivityDisposition(op.id) else SnapshotRefusal(op.id)
    ensures
      var after := Perform(l, op);
      && GrantsOk(after) && after.grants == l.grants
      && (forall g :: g in l.consumed ==> g in after.consumed && after.consumed[g] == l.consumed[g])
  {
    CallsLeaveGrants(l, op);
    if DelegatedWrite(l, op, r) {
      hide Perform;
      DelegatedWriteSpendsItsGrant(l, op, r);
    } else {
      OnlyDelegatedWritesSpend(l, op, r);
    }
  }

  lemma CallsLeaveGrants(l: Ledger, op: Op)
    requires op.RecordDisposition? || op.AcknowledgeRefusal?
    ensures Perform(l, op).grants == l.grants && Perform(l, op).nextGrant == l.nextGrant
  {
    hide HasTag, Written, Resolve, SameReceipt;
  }

  lemma OnlyDelegatedWritesSpend(l: Ledger, op: Op, r: Resource)
    requires op.RecordDisposition? || op.AcknowledgeRefusal?
    requires r == if op.RecordDisposition? then ActivityDisposition(op.id) else SnapshotRefusal(op.id)
    requires !DelegatedWrite(l, op, r)
    ensures Perform(l, op).consumed == l.consumed
  {
    hide HasTag, Written, Resolve, SameReceipt;
  }

  /** The spent mark of a resource moves exactly with a delegated write to it. */
  lemma SpentMovesWithTheWrite(l: Ledger, op: Op, r: Resource)
    requires GrantsOk(l)
    ensures Spent(Perform(l, op), r) <==> Spent(l, r) || DelegatedWrite(l, op, r)
    ensures DelegatedWrite(l, op, r) ==> !Spent(l, r)
  {
    hide Perform, GrantsOk;
    PerformKeepsGrants(l, op);
    if DelegatedWrite(l, op, r) {
      DelegatedWriteSpendsItsGrant(l, op, r);
    } else if exists q :: DelegatedWrite(l, op, q) {
      var q :| DelegatedWrite(l, op, q);
      DelegatedWriteSpendsItsGrant(l, op, q);
      if r in l.grants { DistinctGrants(l, q, r); }
    } else {
      OtherCallsSpendNothing(l, op);
    }
  }

  lemma DistinctGrants(l: Ledger, q: Resource, r: Resource)
    requires GrantsOk(l) && q != r && q in l.grants && r in l.grants
    ensures l.grants[q].id != l.grants[r].id
  {
  }

  // ---- Runs --------------------------------------------------------------------------------

  function DelegatedWrites(l: Ledger, ops: seq<Op>, r: Resource): nat
    decreases |ops|
  {
    if ops == [] then 0
    else (if DelegatedWrite(l, ops[0], r) then 1 else 0) + DelegatedWrites(Perform(l, ops[0]), ops[1..], r)
  }

  function Mark(l: Ledger, r: Resource): nat { if Spent(l, r) then 1 else 0 }

  /** Over any run a resource suffers at most one delegated write, and a grant is spent at
      the end exactly when it was at the start or that one write has happened. */
  lemma {:induction false} OneDelegatedWritePerResource(l: Ledger, ops: seq<Op>, r: Resource)
    requires GrantsOk(l)
    ensures GrantsOk(Run(l, ops))
    ensures Mark(l, r) + DelegatedWrites(l, ops, r) == Mark(Run(l, ops), r)
    ensures DelegatedWrites(l, ops, r) <= 1
    decreases |ops|
  {
    hide Perform, GrantsOk, Spent;
    if ops != [] {
      PerformKeepsGrants(l, ops[0]);
      SpentMovesWithTheWrite(l, ops[0], r);
      OneDelegatedWritePerResource(Perform(l, ops[0]), ops[1..], r);
    }
  }

  /** Grants and consumptions are append-only, and no run changes an owner. */
  lemma {:induction false} CustodyIsPreserved(l: Ledger, ops: seq<Op>, r: Resource, g: nat, id: nat)
    requires GrantsOk(l)
    ensures
      var after := Run(l, ops);
      && (r in l.grants ==> r in after.grants && after.grants[r] == l.grants[r])
      && (g in l.consumed ==> g in after.consumed && after.consumed[g] == l.consumed[g])
      && (id in l.rows ==> id in after.rows && after.rows[id].source == l.rows[id].source
                                            && after.rows[id].content == l.rows[id].content)
      && (id in l.refusals ==> id in after.refusals && after.refusals[id].caller == l.refusals[id].caller)
    decreases |ops|
  {
    hide Perform, GrantsOk;
    if ops != [] {
      PerformKeepsGrants(l, ops[0]);
      PerformKeepsOwners(l, ops[0], id);
      CustodyIsPreserved(Perform(l, ops[0]), ops[1..], r, g, id);
    }
  }

  lemma PerformKeepsOwners(l: Ledger, op: Op, id: nat)
    ensures
      var after := Perform(l, op);
      && (id in l.rows ==> id in after.rows && after.rows[id].source == l.rows[id].source
                                            && after.rows[id].content == l.rows[id].content)
      && (id in l.refusals ==> id in after.refusals && after.refusals[id].caller == l.refusals[id].caller)
  {
    hide HasTag, NoteFor, Resolve;
    if op.ApplyManifest? && ApplyItems(l, op.manifest, |op.manifest.items|).Some? {
      ItemsTouchOnlyGrants(l, op.manifest, |op.manifest.items|);
    }
  }

  /** A refusal granted to a principal that the acknowledgement column does not admit can
      never be acted on: the grant stays unspent for ever. */
  lemma {:induction false} GrantToAnUnlistedPrincipalIsUseless(l: Ledger, ops: seq<Op>, id: nat)
    requires GrantsOk(l) && SnapshotRefusal(id) in l.grants && !Spent(l, SnapshotRefusal(id))
    requires l.grants[SnapshotRefusal(id)].delegate != Cc && l.grants[SnapshotRefusal(id)].delegate != Codex
    ensures !Spent(Run(l, ops), SnapshotRefusal(id))
    decreases |ops|
  {
    hide GrantsOk, Spent, Perform;
    if ops != [] {
      var r := SnapshotRefusal(id);
      PerformKeepsGrants(l, ops[0]);
      SpentMovesWithTheWrite(l, ops[0], r);
      if DelegatedWrite(l, ops[0], r) {
        DelegatedWriteSpendsItsGrant(l, ops[0], r);
        AcknowledgersAreListed(l, ops[0]);
      }
      GrantToAnUnlistedPrincipalIsUseless(Perform(l, ops[0]), ops[1..], id);
    }
  }

  lemma AcknowledgersAreListed(l: Ledger, op: Op)
    requires op.AcknowledgeRefusal? && Perform(l, op) != l
    ensures op.caller == Cc || op.caller == Codex
  {
    hide Resolve;
  }

  /** Acknowledging is once: an acknowledged refusal never changes again. */
  lemma {:induction false} AcknowledgementIsTerminal(l: Ledger, ops: seq<Op>, id: nat)
    requires id in l.refusals && l.refusals[id].decision.Some?
    ensures id in Run(l, ops).refusals && Run(l, ops).refusals[id] == l.refusals[id]
    decreases |ops|
  {
    if ops != [] {
      var op := ops[0];
      if op.ApplyManifest? && ApplyItems(l, op.manifest, |op.manifest.items|).Some? {
        ItemsTouchOnlyGrants(l, op.manifest, |op.manifest.items|);
      }
      assert id in Perform(l, op).refusals && Perform(l, op).refusals[id] == l.refusals[id] by { hide Resolve, HasTag, Written; }
      hide Perform;
      AcknowledgementIsTerminal(Perform(l, op), ops[1..], id);
    }
  }

  /** An acknowledgement under a fitting grant, or by the owner, succeeds exactly for the
      principals that the column admits. */
  lemma AcknowledgedIffListed(l: Ledger, caller: Caller, id: nat, decision: Decision, now: nat)
    requires id in l.refusals && l.refusals[id].decision.None?
    requires l.refusals[id].caller == caller || Resolve(l, SnapshotRefusal(id), l.refusals[id].caller, caller).Active?
    ensures Acknowledge(l, caller, id, decision, now).1 == AckDone <==> caller == Cc || caller == Codex
    ensures Acknowledge(l, caller, id, decision, now).1 != AckDone ==> Acknowledge(l, caller, id, decision, now).0 == l
  {
  }

  /** Yet a manifest is accepted whoever its delegate is, and its grant fits. */
  lemma AnyDelegateIsAccepted(l: Ledger, id: nat, delegate: Caller, reason: string, reference: string)
    requires GrantsOk(l) && id in l.refusals && l.refusals[id].decision.None? && SnapshotRefusal(id) !in l.grants
    ensures
      var item := Item(SnapshotRefusal(id), l.refusals[id].caller, OfRefusal(id, l.refusals[id]));
      var after := Perform(l, ApplyManifest(Manifest(delegate, reason, reference, [item])));
      && ApplyItems(l, Manifest(delegate, reason, reference, [item]), 1).Some?
      && SnapshotRefusal(id) in after.grants && after.grants[SnapshotRefusal(id)].delegate == delegate
      && Resolve(after, SnapshotRefusal(id), l.refusals[id].caller, delegate).Active?
  {
    var item := Item(SnapshotRefusal(id), l.refusals[id].caller, OfRefusal(id, l.refusals[id]));
    var m := Manifest(delegate, reason, reference, [item]);
    assert ApplyItems(l, m, 0) == Some(l);
    assert ApplyItems(l, m, 1) == ApplyItem(l, m, item);
  }

  // ---- Used grants -------------------------------------------------------------------------

  predicate Resolved(l: Ledger, r: Resource) {
    match r
    case ActivityDisposition(id) => id in l.rows && l.rows[id].disposition.Some?
    case SnapshotRefusal(id) => id in l.refusals && l.refusals[id].decision.Some?
  }

  /** A grant names an image that was still open, and a spent one a resource that is not. */
  ghost predicate SpentIsResolved(l: Ledger, r: Resource) {
    && (r in l.grants ==> Actionable(l.grants[r].image))
    && (Spent(l, r) ==> Resolved(l, r))
  }

  lemma ResolvedStays(l: Ledger, op: Op, r: Resource)
    ensures Resolved(l, r) ==> Resolved(Perform(l, op), r)
  {
    hide HasTag, NoteFor, Resolve;
    if op.ApplyManifest? && ApplyItems(l, op.manifest, |op.manifest.items|).Some? {
      ItemsTouchOnlyGrants(l, op.manifest, |op.manifest.items|);
    }
  }

  lemma WriteResolves(l: Ledger, op: Op, r: Resource)
    requires DelegatedWrite(l, op, r)
    ensures Resolved(Perform(l, op), r)
  {
    hide HasTag, NoteFor, Resolve;
  }

  lemma NewGrantsAreOpen(l: Ledger, op: Op, r: Resource)
    requires GrantsOk(l) && r in Perform(l, op).grants && r !in l.grants
    ensures Actionable(Perform(l, op).grants[r].image)
  {
    match op {
      case ApplyManifest(m) =>
        ManifestIsAllOrNothing(l, m);
        var i :| 0 <= i < |m.items| && m.items[i].resource == r;
        assert Granted(Perform(l, op), m, m.items[i]);
      case RecordDisposition(_, _, _) => CallsLeaveGrants(l, op);
      case AcknowledgeRefusal(_, _, _, _) => CallsLeaveGrants(l, op);
      case _ =>
    }
  }

  lemma {:induction false} SpentStaysResolved(l: Ledger, ops: seq<Op>, r: Resource)
    requires GrantsOk(l) && SpentIsResolved(l, r)
    ensures SpentIsResolved(Run(l, ops), r)
    decreases |ops|
  {
    hide Perform, GrantsOk, Resolved, Actionable;
    if ops != [] {
      PerformKeepsGrants(l, ops[0]);
      SpentMovesWithTheWrite(l, ops[0], r);
      ResolvedStays(l, ops[0], r);
      if DelegatedWrite(l, ops[0], r) { WriteResolves(l, ops[0], r); }
      if r in Perform(l, ops[0]).grants && r !in l.grants { NewGrantsAreOpen(l, ops[0], r); }
      SpentStaysResolved(Perform(l, ops[0]), ops[1..], r);
    }
  }

  /** After any run a consumed grant resolves only on the result image that its consumption
      recorded, although the code would accept the issued image too. */
  lemma UsedOnlyOnItsResult(l: Ledger, ops: seq<Op>, r: Resource, owner: Caller, caller: Caller)
    requires GrantsOk(l) && SpentIsResolved(l, r)
    ensures
      var after := Run(l, ops);
      var standing := Resolve(after, r, owner, caller);
      standing.Used? ==> Present(after, r) && ImageOf(after, r) == standing.receipt.result
  {
    hide Run, HasTag;
    SpentStaysResolved(l, ops, r);
  }
}
