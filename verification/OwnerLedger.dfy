// Terminal dispositions, snapshot-refusal acknowledgements and the one-time grants that
// let one principal act for another: what each call does to the database.

module OwnerLedger {
  import opened Common
  import opened ContentTables

  datatype Caller = Cc | Codex | ClaudeAi | NotionOs | PersonalOps

  datatype Choice = Synced | UnsyncedByPolicy | NoDurableTarget | SupersededWithoutReceipt | DeclinedMapping

  function Name(choice: Choice): string {
    match choice
    case Synced => "synced"
    case UnsyncedByPolicy => "unsynced_by_policy"
    case NoDurableTarget => "no_durable_target"
    case SupersededWithoutReceipt => "superseded_without_receipt"
    case DeclinedMapping => "declined_mapping"
  }

  /** An activity row; `content` stands for the columns that no call here writes. */
  datatype Row = Row(
    source: Caller, content: nat, tags: seq<string>,
    disposition: Option<Choice>, decidedBy: Option<Caller>, at: Option<nat>,
    system: Option<string>, reference: Option<string>,
    policyRef: Option<string>, reason: Option<string>, note: Option<string>)

  /** A `record_disposition` call, its texts already stripped. */
  datatype Request = Request(
    caller: Caller, choice: Choice, system: Option<string>, reference: Option<string>,
    reason: Option<string>, policyRef: Option<string>, notes: Option<string>)

  datatype Decision = PreserveHistory | RetryAfterOwnerAction | Superseded

  /** A snapshot refusal; `next_state` is a function of the decision. */
  datatype Refusal = Refusal(caller: Caller, content: nat, decision: Option<Decision>, ackBy: Option<Caller>, at: Option<nat>)

  datatype Resource = ActivityDisposition(id: nat) | SnapshotRefusal(id: nat)

  /** A resource image; its digest is injective, so an image stands for its digest. */
  datatype Image = OfRow(id: nat, row: Row) | OfRefusal(id: nat, refusal: Refusal)

  datatype Grant = Grant(id: nat, owner: Caller, delegate: Caller, image: Image, reason: string, reference: string)

  datatype Action = Disposed(choice: Choice) | Acknowledged(decision: Decision)

  datatype Consumption = Consumption(actor: Caller, action: Action, result: Image)

  /** The tables. `grants` is keyed by its UNIQUE columns, `consumed` by its primary key. */
  datatype Ledger = Ledger(
    rows: map<nat, Row>,
    refusals: map<nat, Refusal>,
    grants: map<Resource, Grant>,
    consumed: map<nat, Consumption>,
    nextGrant: nat,
    jobs: seq<nat>)

  // ---- Images and grants -------------------------------------------------------------------

  predicate Present(l: Ledger, r: Resource) {
    match r
    case ActivityDisposition(id) => id in l.rows && HasTag(l.rows[id].tags, "SHIPPED")
    case SnapshotRefusal(id) => id in l.refusals
  }

  function ImageOf(l: Ledger, r: Resource): Image
    requires Present(l, r)
  {
    match r
    case ActivityDisposition(id) => OfRow(id, l.rows[id])
    case SnapshotRefusal(id) => OfRefusal(id, l.refusals[id])
  }

  function OwnerIn(image: Image): Caller {
    match image
    case OfRow(_, row) => row.source
    case OfRefusal(_, refusal) => refusal.caller
  }

  predicate Actionable(image: Image) {
    match image
    case OfRow(_, row) => row.disposition.None? && "PROCESSED" !in row.tags
    case OfRefusal(_, refusal) => refusal.decision.None?
  }

  datatype Resolution = NoGrant | ResourceChanged | Active(grant: nat) | Used(grant: nat, receipt: Consumption)

  /** `resolve_owner_delegation` for a caller who is not the owner. */
  function Resolve(l: Ledger, r: Resource, owner: Caller, caller: Caller): Resolution {
    if !Present(l, r) then ResourceChanged
    else if r !in l.grants then NoGrant
    else
      var g := l.grants[r];
      var image := ImageOf(l, r);
      if g.owner != owner || OwnerIn(image) != owner || g.delegate != caller then ResourceChanged
      else if g.id in l.consumed then
        if image == g.image || image == l.consumed[g.id].result then Used(g.id, l.consumed[g.id]) else ResourceChanged
      else if image == g.image then Active(g.id)
      else ResourceChanged
  }

  // ---- Manifests ---------------------------------------------------------------------------

  datatype Item = Item(resource: Resource, owner: Caller, image: Image)

  datatype Manifest = Manifest(delegate: Caller, reason: string, reference: string, items: seq<Item>)

  predicate Matches(l: Ledger, item: Item) {
    && Present(l, item.resource)
    && OwnerIn(ImageOf(l, item.resource)) == item.owner && ImageOf(l, item.resource) == item.image
    && Actionable(item.image)
  }

  function GrantFor(m: Manifest, item: Item, id: nat): Grant {
    Grant(id, item.owner, m.delegate, item.image, m.reason, m.reference)
  }

  /** One loop turn of the manifest; None is the raise that rolls everything back. */
  function ApplyItem(l: Ledger, m: Manifest, item: Item): Option<Ledger> {
    if !Matches(l, item) then None
    else if item.resource in l.grants then
      if l.grants[item.resource] == GrantFor(m, item, l.grants[item.resource].id) then Some(l) else None
    else Some(l.(grants := l.grants[item.resource := GrantFor(m, item, l.nextGrant)], nextGrant := l.nextGrant + 1))
  }

  function ApplyItems(l: Ledger, m: Manifest, n: nat): Option<Ledger>
    requires n <= |m.items|
  {
    if n == 0 then Some(l)
    else
      match ApplyItems(l, m, n - 1)
      case None => None
      case Some(mid) => ApplyItem(mid, m, m.items[n - 1])
  }

  // ---- Dispositions ------------------------------------------------------------------------

  datatype Reason =
    | BadRequest | NotFound | NotShipped | NotDelegated | GrantChanged
    | ImmutableReceipt | AlreadyConsumed | Downgrade

  datatype Outcome = Recorded(processedAdded: bool) | Replayed | Refused(reason: Reason)

  predicate Blank(text: Option<string>) { text.None? || text.value == "" }

  predicate WellFormed(req: Request) {
    if req.choice.Synced? then !Blank(req.system) && !Blank(req.reference) else !Blank(req.reason)
  }

  predicate SameReceipt(row: Row, req: Request) {
    && row.disposition == Some(Synced) && row.decidedBy == Some(req.caller)
    && row.system == req.system && row.reference == req.reference && row.note == req.notes
  }

  /** What the SELECT phase settles: an answer, or the row and the grant to go on with. */
  datatype Seen = Answer(outcome: Outcome) | Proceed(row: Row, grant: Option<nat>)

  function AfterOwnership(row: Row, req: Request, grant: Option<nat>): Seen {
    if !req.choice.Synced? && row.disposition == Some(Synced) then Answer(Refused(Downgrade)) else Proceed(row, grant)
  }

  /** `record_disposition` up to its first write. */
  function Select(l: Ledger, id: nat, req: Request): Seen {
    if !WellFormed(req) then Answer(Refused(BadRequest))
    else if id !in l.rows then Answer(Refused(NotFound))
    else if !HasTag(l.rows[id].tags, "SHIPPED") then Answer(Refused(NotShipped))
    else
      var row := l.rows[id];
      var standing :=
        if row.source == req.caller then None
        else Some(Resolve(l, ActivityDisposition(id), row.source, req.caller));
      if standing == Some(ResourceChanged) then Answer(Refused(GrantChanged))
      else if standing == Some(NoGrant) then Answer(Refused(NotDelegated))
      else if req.choice.Synced? && row.disposition == Some(Synced) then
        Answer(if SameReceipt(row, req) then Replayed else Refused(ImmutableReceipt))
      else if standing.Some? && standing.value.Used? then
        Answer(if !req.choice.Synced? && standing.value.receipt.action == Disposed(req.choice)
                  && row.disposition == Some(req.choice) then Replayed else Refused(AlreadyConsumed))
      else AfterOwnership(row, req, if standing.Some? then Some(standing.value.grant) else None)
  }

  /** How a superseded policy decision is kept in the note. */
  function SupersededNote(row: Row): string
    requires row.disposition.Some?
  {
    "superseded prior disposition '" + Name(row.disposition.value) + "'"
    + (if Blank(row.reason) then "" else ": " + row.reason.value)
    + (if Blank(row.policyRef) then "" else " (policy_ref=" + row.policyRef.value + ")")
  }

  function NoteFor(row: Row, req: Request): Option<string> {
    if req.choice.Synced? && row.disposition.Some? && !row.disposition.value.Synced? then
      Some((if Blank(req.notes) then "" else req.notes.value + "; ") + SupersededNote(row))
    else req.notes
  }

  /** The row after the UPDATE statements, `seen` being the row of the SELECT phase. */
  function Written(row: Row, seen: Row, req: Request, now: nat): Row {
    row.(
      tags := if req.choice.Synced? && !HasTag(seen.tags, "PROCESSED") then seen.tags + ["PROCESSED"] else row.tags,
      disposition := Some(req.choice), decidedBy := Some(req.caller), at := Some(now),
      system := if req.choice.Synced? then req.system else None,
      reference := if req.choice.Synced? then req.reference else None,
      policyRef := if req.choice.Synced? then None else req.policyRef,
      reason := if req.choice.Synced? then None else req.reason,
      note := NoteFor(seen, req))
  }

  /** The transaction from the first write to the commit or the rollback. */
  function Commit(l: Ledger, id: nat, req: Request, seen: Row, grant: Option<nat>, now: nat): (Ledger, Outcome)
    requires id in l.rows
  {
    var row := l.rows[id];
    if req.choice.Synced? && row.disposition == Some(Synced) then
      (l, if SameReceipt(row, req) then Replayed else Refused(ImmutableReceipt))
    else if grant.Some? && grant.value in l.consumed then (l, Refused(AlreadyConsumed))
    else
      var written := Written(row, seen, req, now);
      (l.(rows := l.rows[id := written],
          consumed := if grant.None? then l.consumed
                      else l.consumed[grant.value := Consumption(req.caller, Disposed(req.choice), OfRow(id, written))],
          jobs := if req.choice.Synced? then l.jobs + [id] else l.jobs),
       Recorded(req.choice.Synced? && !HasTag(seen.tags, "PROCESSED")))
  }

  /** A call that no other call interrupts. */
  function Record(l: Ledger, id: nat, req: Request, now: nat): (Ledger, Outcome) {
    match Select(l, id, req)
    case Answer(outcome) => (l, outcome)
    case Proceed(row, grant) => Commit(l, id, req, row, grant, now)
  }

  // ---- Acknowledgements --------------------------------------------------------------------

  datatype AckOutcome = AckDone | AckReplayed | AckNotFound | AckOwnerMismatch | AckGrantChanged
                      | AckAlreadyAcknowledged | AckAlreadyConsumed | AckConstraint

  /** `acknowledge_snapshot_refusal_record`, one BEGIN IMMEDIATE transaction.  The
      column's CHECK lets only two of the five principals acknowledge. */
  function Acknowledge(l: Ledger, caller: Caller, id: nat, decision: Decision, now: nat): (Ledger, AckOutcome) {
    if id !in l.refusals then (l, AckNotFound)
    else
      var refusal := l.refusals[id];
      var standing :=
        if refusal.caller == caller then None else Some(Resolve(l, SnapshotRefusal(id), refusal.caller, caller));
      if standing == Some(ResourceChanged) then (l, AckGrantChanged)
      else if standing == Some(NoGrant) then (l, AckOwnerMismatch)
      else if refusal.decision.Some? then
        (l, if refusal.decision == Some(decision) then AckReplayed else AckAlreadyAcknowledged)
      else if standing.Some? && standing.value.Used? then (l, AckAlreadyConsumed)
      else if caller != Cc && caller != Codex then (l, AckConstraint)
      else
        var written := refusal.(decision := Some(decision), ackBy := Some(caller), at := Some(now));
        (l.(refusals := l.refusals[id := written],
            consumed := if standing.None? then l.consumed
                        else
                          var receipt := Consumption(caller, Acknowledged(decision), OfRefusal(id, written));
                          l.consumed[standing.value.grant := receipt]),
         AckDone)
  }

  // ---- Runs of whole calls -----------------------------------------------------------------

  datatype Op =
    | RecordDisposition(id: nat, req: Request, now: nat)
    | AcknowledgeRefusal(caller: Caller, id: nat, decision: Decision, now: nat)
    | ApplyManifest(manifest: Manifest)
    | NewRow(id: nat, row: Row)
    | NewRefusal(id: nat, refusal: Refusal)

  /** A row enters with no disposition. */
  predicate Untouched(row: Row) { row.disposition.None? }

  function Perform(l: Ledger, op: Op): Ledger {
    match op
    case RecordDisposition(id, req, now) => Record(l, id, req, now).0
    case AcknowledgeRefusal(caller, id, decision, now) => Acknowledge(l, caller, id, decision, now).0
    case ApplyManifest(m) =>
      var applied := ApplyItems(l, m, |m.items|);
      if applied.Some? then applied.value else l
    case NewRow(id, row) => if id in l.rows || !Untouched(row) then l else l.(rows := l.rows[id := row])
    case NewRefusal(id, refusal) =>
      if id in l.refusals || refusal.decision.Some? then l else l.(refusals := l.refusals[id := refusal])
  }

  function Run(l: Ledger, ops: seq<Op>): Ledger
    decreases |ops|
  {
    if ops == [] then l else Run(Perform(l, ops[0]), ops[1..])
  }
}
