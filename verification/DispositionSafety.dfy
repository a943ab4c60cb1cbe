// What whole disposition calls keep: proof of sync is terminal, carries its tag and its
// single projection job, and does not erase the policy decision that it supersedes.

module DispositionSafety {
  import opened Common
  import opened ContentTables
  import opened OwnerLedger

  predicate IsSynced(l: Ledger, id: nat) { id in l.rows && l.rows[id].disposition == Some(Synced) }

  predicate Processed(row: Row) { row.disposition == Some(Synced) ==> HasTag(row.tags, "PROCESSED") }

  /** One projection job for each transition into synced. */
  predicate JobsFor(l: Ledger, id: nat) { multiset(l.jobs)[id] == if IsSynced(l, id) then 1 else 0 }

  lemma AppendedTag(tags: seq<string>, tag: string, name: string)
    ensures HasTag(tags + [tag], name) <==> HasTag(tags, name) || Upper(tag) == name
  {
    var more := tags + [tag];
    if HasTag(tags, name) {
      var i :| 0 <= i < |tags| && Upper(tags[i]) == name;
      assert Upper(more[i]) == name;
    }
    assert Upper(more[|tags|]) == Upper(tag);
    if HasTag(more, name) {
      var i :| 0 <= i < |more| && Upper(more[i]) == name;
      assert i < |tags| ==> Upper(tags[i]) == name;
    }
  }

  lemma WrittenTags(row: Row, req: Request, now: nat)
    ensures Processed(Written(row, row, req, now))
    ensures HasTag(row.tags, "SHIPPED") ==> HasTag(Written(row, row, req, now).tags, "SHIPPED")
    ensures !req.choice.Synced? ==> Written(row, row, req, now).tags == row.tags
  {
    assert Upper("PROCESSED") == "PROCESSED";
    AppendedTag(row.tags, "PROCESSED", "PROCESSED");
    AppendedTag(row.tags, "PROCESSED", "SHIPPED");
  }

  lemma ItemsTouchOnlyGrants(l: Ledger, m: Manifest, n: nat)
    requires n <= |m.items| && ApplyItems(l, m, n).Some?
    ensures
      var after := ApplyItems(l, m, n).value;
      after == l.(grants := after.grants, nextGrant := after.nextGrant)
  {
    if n > 0 { ItemsTouchOnlyGrants(l, m, n - 1); }
  }

  /** What one call can do to one row: nothing, its first appearance, or one `Written`. */
  lemma RowStep(l: Ledger, op: Op, id: nat)
    ensures id in l.rows ==> id in Perform(l, op).rows
    ensures
      var after := Perform(l, op);
      || (after.jobs == l.jobs && id in l.rows && after.rows[id] == l.rows[id])
      || (after.jobs == l.jobs && id !in l.rows && (id in after.rows ==> after.rows[id].disposition.None?))
      || (op.RecordDisposition? && op.id != id
          && (id in after.rows <==> id in l.rows) && (id in l.rows ==> after.rows[id] == l.rows[id])
          && (after.jobs == l.jobs || after.jobs == l.jobs + [op.id]))
      || (op.RecordDisposition? && op.id == id && id in l.rows && !IsSynced(l, id)
          && after.rows[id] == Written(l.rows[id], l.rows[id], op.req, op.now)
          && after.jobs == if op.req.choice.Synced? then l.jobs + [id] else l.jobs)
  {
    hide HasTag, Written, Resolve;
    if op.ApplyManifest? && ApplyItems(l, op.manifest, |op.manifest.items|).Some? {
      ItemsTouchOnlyGrants(l, op.manifest, |op.manifest.items|);
    }
  }

  lemma PerformKeepsDispositions(l: Ledger, op: Op, id: nat)
    requires JobsFor(l, id) && (id in l.rows ==> Processed(l.rows[id]))
    ensures
      var after := Perform(l, op);
      && JobsFor(after, id) && (id in after.rows ==> Processed(after.rows[id]))
      && (IsSynced(l, id) ==> id in after.rows && after.rows[id] == l.rows[id])
  {
    hide Perform, HasTag;
    RowStep(l, op, id);
    if id in l.rows && op.RecordDisposition? { WrittenTags(l.rows[id], op.req, op.now); }
  }

  /** Over every run of whole calls, a synced row never changes again, synced rows carry
      `PROCESSED`, and each has exactly the one projection job of its transition. */
  lemma {:induction false} SyncedIsTerminal(l: Ledger, ops: seq<Op>, id: nat)
    requires JobsFor(l, id) && (id in l.rows ==> Processed(l.rows[id]))
    ensures
      var after := Run(l, ops);
      && JobsFor(after, id) && (id in after.rows ==> Processed(after.rows[id]))
      && (IsSynced(l, id) ==> id in after.rows && after.rows[id] == l.rows[id])
    decreases |ops|
  {
    hide Perform, JobsFor, Processed;
    if ops != [] {
      PerformKeepsDispositions(l, ops[0], id);
      SyncedIsTerminal(Perform(l, ops[0]), ops[1..], id);
    }
  }

  /** Only proof of sync touches the tags, and it adds at most `PROCESSED`. */
  lemma OnlySyncedAddsProcessed(l: Ledger, id: nat, req: Request, now: nat)
    requires id in l.rows
    ensures
      var (after, outcome) := Record(l, id, req, now);
      && (after.rows[id].tags != l.rows[id].tags ==>
            && req.choice.Synced? && outcome == Recorded(true)
            && !HasTag(l.rows[id].tags, "PROCESSED") && after.rows[id].tags == l.rows[id].tags + ["PROCESSED"])
      && (outcome == Recorded(true) ==> after.rows[id].tags != l.rows[id].tags)
      && (!outcome.Recorded? ==> after == l)
  {
    hide HasTag, Resolve;
  }

  // ---- The superseded policy ---------------------------------------------------------------

  predicate OccursAt(text: string, part: string, i: nat) { i + |part| <= |text| && text[i..i + |part|] == part }

  ghost predicate Contains(text: string, part: string) { exists i: nat :: OccursAt(text, part, i) }

  lemma Within(text: string, left: string, part: string, right: string)
    requires text == left + part + right
    ensures Contains(text, part)
  {
    assert OccursAt(text, part, |left|);
  }

  lemma StillWithin(left: string, text: string, part: string)
    requires Contains(text, part)
    ensures Contains(left + text, part)
  {
    var i: nat :| OccursAt(text, part, i);
    assert (left + text)[|left| + i..|left| + i + |part|] == part;
    assert OccursAt(left + text, part, |left| + i);
  }

  predicate HasPolicy(row: Row) { row.disposition.Some? && !row.disposition.value.Synced? }

  /** The three parts of the note, in order. */
  lemma NoteParts(row: Row)
    requires HasPolicy(row)
    ensures SupersededNote(row) == "superseded prior disposition '" + Name(row.disposition.value) + ("'" + Why(row) + Where(row))
    ensures !Blank(row.reason) ==>
      SupersededNote(row) == ("superseded prior disposition '" + Name(row.disposition.value) + "'" + ": ") + row.reason.value + Where(row)
    ensures !Blank(row.policyRef) ==>
      SupersededNote(row) == ("superseded prior disposition '" + Name(row.disposition.value) + "'" + Why(row) + " (policy_ref=")
                             + row.policyRef.value + ")"
  {
    hide Name;
  }

  function Why(row: Row): string { if Blank(row.reason) then "" else ": " + row.reason.value }

  function Where(row: Row): string { if Blank(row.policyRef) then "" else " (policy_ref=" + row.policyRef.value + ")" }

  lemma SupersededNoteKeeps(row: Row)
    requires HasPolicy(row)
    ensures Contains(SupersededNote(row), Name(row.disposition.value))
    ensures !Blank(row.reason) ==> Contains(SupersededNote(row), row.reason.value)
    ensures !Blank(row.policyRef) ==> Contains(SupersededNote(row), row.policyRef.value)
  {
    hide Contains, Name, SupersededNote, Why, Where;
    NoteParts(row);
    var note, lead := SupersededNote(row), "superseded prior disposition '" + Name(row.disposition.value) + "'";
    Within(note, "superseded prior disposition '", Name(row.disposition.value), "'" + Why(row) + Where(row));
    if !Blank(row.reason) { Within(note, lead + ": ", row.reason.value, Where(row)); }
    if !Blank(row.policyRef) { Within(note, lead + Why(row) + " (policy_ref=", row.policyRef.value, ")"); }
  }

  /** A receipt that supersedes a policy decision keeps that decision's name, its reason,
      its reference and the caller's own notes in the row's note. */
  lemma SupersededPolicySurvives(l: Ledger, id: nat, req: Request, now: nat)
    requires id in l.rows && HasPolicy(l.rows[id]) && req.choice.Synced? && Record(l, id, req, now).1.Recorded?
    ensures
      var row, note := l.rows[id], Record(l, id, req, now).0.rows[id].note;
      && note.Some? && Contains(note.value, Name(row.disposition.value))
      && (!Blank(row.reason) ==> Contains(note.value, row.reason.value))
      && (!Blank(row.policyRef) ==> Contains(note.value, row.policyRef.value))
      && (!Blank(req.notes) ==> Contains(note.value, req.notes.value))
  {
    hide HasTag, Resolve, Contains, SupersededNote, Name;
    var row := l.rows[id];
    var kept := SupersededNote(row);
    var prefix := if Blank(req.notes) then "" else req.notes.value + "; ";
    assert Record(l, id, req, now).0.rows[id].note == Some(prefix + kept);
    SupersededNoteKeeps(row);
    StillWithin(prefix, kept, Name(row.disposition.value));
    if !Blank(row.reason) { StillWithin(prefix, kept, row.reason.value); }
    if !Blank(row.policyRef) { StillWithin(prefix, kept, row.policyRef.value); }
    if !Blank(req.notes) {
      assert prefix + kept == "" + req.notes.value + ("; " + kept);
      Within(prefix + kept, "", req.notes.value, "; " + kept);
    }
  }

  lemma SupersededNoteDiffers(row: Row, req: Request)
    requires HasPolicy(row) && req.choice.Synced?
    ensures NoteFor(row, req) != req.notes
  {
    var kept := SupersededNote(row);
    assert |kept| > 0;
    if !Blank(req.notes) { assert |NoteFor(row, req).value| > |req.notes.value|; }
  }

  /** Repeating a successful receipt is the promised no-op exactly when it superseded no
      policy decision; otherwise the stored note differs and the repeat is refused. */
  lemma ReplayIffNothingWasSuperseded(l: Ledger, id: nat, req: Request, now: nat, later: nat)
    requires id in l.rows && req.choice.Synced? && Record(l, id, req, now).1.Recorded?
    ensures
      var once := Record(l, id, req, now).0;
      && Record(once, id, req, later).0 == once
      && Record(once, id, req, later).1 == if HasPolicy(l.rows[id]) then Refused(ImmutableReceipt) else Replayed
  {
    hide HasTag, SupersededNote;
    var row := l.rows[id];
    var once := Record(l, id, req, now).0;
    WrittenTags(row, req, now);
    assert once.rows[id] == Written(row, row, req, now);
    if HasPolicy(row) { SupersededNoteDiffers(row, req); }
    assert Select(once, id, req) == Answer(if HasPolicy(row) then Refused(ImmutableReceipt) else Replayed);
  }

  /** A delegate's lost policy response can be asked for again without a second write. */
  lemma DelegatedPolicyReplays(l: Ledger, id: nat, req: Request, now: nat, later: nat)
    requires id in l.rows && l.rows[id].source != req.caller && !req.choice.Synced? && Record(l, id, req, now).1.Recorded?
    ensures Record(Record(l, id, req, now).0, id, req, later) == (Record(l, id, req, now).0, Replayed)
  {
    hide HasTag, NoteFor;
    var row := l.rows[id];
    var once := Record(l, id, req, now).0;
    WrittenTags(row, req, now);
    assert once.rows[id] == Written(row, row, req, now);
    assert Select(once, id, req) == Answer(Replayed);
  }
}
