// Retention, families and saves told row by row: which rows count as newer, which payloads
// share a family, and what each save answers.

module ContentAnswers {
  import opened Common
  import opened FtsIndex
  import opened NewestRows
  import opened ContentTables
  import opened ContentRetention

  // ---- Ranks ---------------------------------------------------------------------------------

  function StampsOf(created: map<nat, int>, ids: set<nat>): set<Stamp>
    requires ids <= created.Keys
  {
    set id | id in ids :: Stamp(created[id], id)
  }

  /** Stamps carry their ids, so there are as many stamps as rows. */
  lemma {:induction false} AsManyStamps(created: map<nat, int>, ids: set<nat>)
    requires ids <= created.Keys
    ensures |StampsOf(created, ids)| == |ids|
  {
    if ids != {} {
      var id :| id in ids;
      var rest := ids - {id};
      AsManyStamps(created, rest);
      forall x | x in StampsOf(created, ids) ensures x in StampsOf(created, rest) + {Stamp(created[id], id)} {
        assert x.id == id || x.id in rest;
      }
      assert StampsOf(created, ids) == StampsOf(created, rest) + {Stamp(created[id], id)};
    }
  }

  predicate Later(created: int, id: nat, thanCreated: int, thanId: nat) {
    created > thanCreated || (created == thanCreated && id > thanId)
  }

  // ---- Activity ------------------------------------------------------------------------------

  /** The rows of the same source that were created later, ties broken by id. */
  function NewerActivity(rows: map<nat, ActivityRow>, id: nat): set<nat>
    requires id in rows
  {
    set k | k in rows && rows[k].source == rows[id].source && Later(rows[k].created, k, rows[id].created, id)
  }

  lemma SourceRank(rows: map<nat, ActivityRow>, id: nat, limit: nat)
    requires id in rows
    ensures AmongSourceNewest(rows, id, limit) <==> |NewerActivity(rows, id)| < limit
  {
    var created := map k | k in rows :: rows[k].created;
    var ids := NewerActivity(rows, id);
    var all, x := SourceStamps(rows, rows[id].source), Stamp(rows[id].created, id);
    AsManyStamps(created, ids);
    assert x in all;
    forall y ensures y in NewerThan(all, x) <==> y in StampsOf(created, ids) {
      if y in NewerThan(all, x) { assert y.id in ids; }
      if y in StampsOf(created, ids) { assert y.id in ids && y in all; }
    }
    assert NewerThan(all, x) == StampsOf(created, ids);
  }

  /** An accepted insert stores the offered row, its tags in canonical form, under a fresh
      id; without a limit nothing leaves, and with one a row of the source leaves exactly if
      it is unprotected and at least that many rows of the source are newer. */
  lemma InsertRowByRow(s: Store, row: ActivityRow, keep: Option<nat>, quota: Option<nat>, id: nat)
    requires Valid(s) && InsertActivity(s, row, keep, quota).1.Some?
    ensures
      var offered := s.activity[s.nextActivity := row.(tags := Canonical(row.tags))];
      var (after, answer) := InsertActivity(s, row, keep, quota);
      && answer.value !in s.activity && offered == s.activity[answer.value := row.(tags := Canonical(row.tags))]
      && (id in after.activity <==>
            && id in offered
            && (keep.Some? && offered[id].source == row.source && !Protected(offered[id].tags) ==>
                  |NewerActivity(offered, id)| < keep.value))
      && (id in after.activity ==> after.activity[id] == offered[id])
      && after.snapshots == s.snapshots && after.sections == s.sections && after.handoffs == s.handoffs
  {
    hide NewerActivity, Protected, Canonical, ActivityText, Upserted, Gc, ProtectedRows, AmongSourceNewest;
    var offered := s.activity[s.nextActivity := row.(tags := Canonical(row.tags))];
    if id in offered && keep.Some? { SourceRank(offered, id, keep.value); }
    if keep.Some? { RetentionIsExact(s, row, keep.value, quota, id); }
  }

  /** The tag is appended once, to this row alone. */
  lemma ProcessedOnce(s: Store, id: nat)
    ensures
      var after := MarkProcessed(s, id);
      && (id !in s.activity ==> after == s)
      && (id in s.activity ==>
            var tags := s.activity[id].tags;
            var marked := exists i :: 0 <= i < |tags| && Upper(tags[i]) == "PROCESSED";
            && after.activity == s.activity[id := s.activity[id].(tags := if marked then tags else tags + ["PROCESSED"])]
            && after.snapshots == s.snapshots && (marked ==> after == s))
  {
  }

  // ---- Snapshot families -----------------------------------------------------------------------

  predicate Operates(row: SnapshotRow) {
    "infrastructure" in row.data.keys && "automation_digest" in row.data.keys && "active_projects" in row.data.keys
  }

  /** Only codex payloads are told apart: by the three operating keys, and without them by
      the consulted node. */
  predicate SameFamily(a: SnapshotRow, b: SnapshotRow) {
    && a.system == b.system
    && (a.system == "codex" ==>
          && (Operates(a) <==> Operates(b))
          && (!Operates(a) ==> ("consulted_node" in a.data.keys <==> "consulted_node" in b.data.keys)))
  }

  lemma FamiliesAreShared(a: SnapshotRow, b: SnapshotRow)
    ensures RowFamily(a) == General <==> a.system != "codex"
    ensures RowFamily(a) == Operating <==> a.system == "codex" && Operates(a)
    ensures RowFamily(a) == ConsultedNode <==> a.system == "codex" && !Operates(a) && "consulted_node" in a.data.keys
    ensures a.system == b.system ==> (RowFamily(a) == RowFamily(b) <==> SameFamily(a, b))
  {
  }

  /** The stored rows of the family that this row belongs to. */
  function Relatives(rows: map<nat, SnapshotRow>, row: SnapshotRow): set<nat> {
    set k | k in rows && SameFamily(rows[k], row)
  }

  function NewerRelatives(rows: map<nat, SnapshotRow>, id: nat): set<nat>
    requires id in rows
  {
    set k | k in rows && SameFamily(rows[k], rows[id]) && Later(rows[k].created, k, rows[id].created, id)
  }

  lemma CountRelatives(rows: map<nat, SnapshotRow>, row: SnapshotRow)
    ensures |FamilyStamps(rows, row.system, RowFamily(row))| == |Relatives(rows, row)|
  {
    hide RowFamily, SameFamily;
    var created := map k | k in rows :: rows[k].created;
    var ids, all := Relatives(rows, row), FamilyStamps(rows, row.system, RowFamily(row));
    AsManyStamps(created, ids);
    forall k | k in rows ensures k in ids <==> rows[k].system == row.system && RowFamily(rows[k]) == RowFamily(row) {
      FamiliesAreShared(rows[k], row);
      assert SameFamily(rows[k], row) ==> rows[k].system == row.system by { SameSystem(rows[k], row); }
    }
    forall y ensures y in all <==> y in StampsOf(created, ids) {
      if y in all { assert y.id in ids; }
      if y in StampsOf(created, ids) { assert y.id in ids && y in all; }
    }
    assert all == StampsOf(created, ids);
  }

  lemma SameSystem(a: SnapshotRow, b: SnapshotRow)
    ensures SameFamily(a, b) ==> a.system == b.system
  {
  }

  lemma FamilyRank(rows: map<nat, SnapshotRow>, id: nat, limit: nat)
    requires id in rows
    ensures AmongFamilyNewest(rows, id, limit) <==> |NewerRelatives(rows, id)| < limit
  {
    hide RowFamily, SameFamily;
    var created := map k | k in rows :: rows[k].created;
    var ids, x := NewerRelatives(rows, id), Stamp(rows[id].created, id);
    var all := FamilyStamps(rows, rows[id].system, RowFamily(rows[id]));
    AsManyStamps(created, ids);
    assert x in all;
    forall k | k in rows
      ensures SameFamily(rows[k], rows[id]) <==> rows[k].system == rows[id].system && RowFamily(rows[k]) == RowFamily(rows[id])
    {
      FamiliesAreShared(rows[k], rows[id]);
      SameSystem(rows[k], rows[id]);
    }
    forall y ensures y in NewerThan(all, x) <==> y in StampsOf(created, ids) {
      if y in NewerThan(all, x) { assert y.id in ids; }
      if y in StampsOf(created, ids) { assert y.id in ids && y in all; }
    }
    assert NewerThan(all, x) == StampsOf(created, ids);
  }

  /** Every answer to a save.  A seed never adds to a system that has a snapshot; a caller
      that must preserve is refused exactly when the family is full, and the refusal is
      recorded; everything else is stored under a fresh id. */
  lemma SaveIsAnswered(s: Store, limit: nat, caller: string, row: SnapshotRow, policy: Policy, seed: bool)
    requires Valid(s)
    ensures
      var (after, out) := SaveSnapshot(s, limit, caller, row, policy, seed);
      var seeded := seed && exists id :: id in s.snapshots && s.snapshots[id].system == row.system;
      var preserve := policy == PreserveExisting || seed;
      var retained := |Relatives(s.snapshots, row)|;
      && (out == SkippedExistingSystem <==> seeded) && (seeded ==> after == s)
      && (out == RefusedFull <==> !seeded && preserve && retained >= limit)
      && (out == RefusedFull ==>
            after == s.(refusals := s.refusals + [Refusal(caller, row.system, RowFamily(row), retained)]))
      && (out.Saved? ==> out.id !in s.snapshots && after.refusals == s.refusals && after.activity == s.activity)
      && (out.Saved? && preserve ==> out.pruned == {} && after.snapshots == s.snapshots[out.id := row])
  {
    hide FamilyStamps, Relatives, RowFamily, Upserted, Gc, AmongFamilyNewest;
    CountRelatives(s.snapshots, row);
  }

  /** A save that prunes keeps every other system, and of its own system exactly the rows
      with fewer than `limit` newer ones in their family, whichever family was saved. */
  lemma PruneRowByRow(s: Store, limit: nat, caller: string, row: SnapshotRow, id: nat)
    requires Valid(s)
    ensures
      var (after, out) := SaveSnapshot(s, limit, caller, row, PruneOldest, false);
      && out.Saved? && out.id !in s.snapshots
      && var offered := s.snapshots[out.id := row];
         && (id in after.snapshots <==>
               id in offered && (offered[id].system == row.system ==> |NewerRelatives(offered, id)| < limit))
         && (id in after.snapshots ==> after.snapshots[id] == offered[id])
         && (id in out.pruned <==> id in offered && id !in after.snapshots)
  {
    hide NewerRelatives, AmongFamilyNewest, Upserted, Gc, RowFamily;
    var offered := s.snapshots[s.nextSnapshot := row];
    if id in offered { FamilyRank(offered, id, limit); }
    var dead := Doomed(offered, row.system, limit);
    assert WithSnapshot(s, s.nextSnapshot, row).snapshots == offered;
    assert SaveSnapshot(s, limit, caller, row, PruneOldest, false).0.snapshots == offered - dead;
  }
}
