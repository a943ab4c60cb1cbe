// What activity inserts, snapshot saves and disposition edits do to the tables, and what
// every run of them keeps.

module ContentRetention {
  import opened Common
  import opened FtsIndex
  import opened NewestRows
  import opened ContentTables

  // ---- Activity inserts ------------------------------------------------------------------

  function SourceStamps(rows: map<nat, ActivityRow>, source: string): set<Stamp> {
    set id | id in rows && rows[id].source == source :: Stamp(rows[id].created, id)
  }

  /** The row is one of its source's newest `limit`, protected rows counted. */
  predicate AmongSourceNewest(rows: map<nat, ActivityRow>, id: nat, limit: nat)
    requires id in rows
  {
    AmongNewest(SourceStamps(rows, rows[id].source), Stamp(rows[id].created, id), limit)
  }

  function ProtectedRows(rows: map<nat, ActivityRow>, source: string): set<nat> {
    set id | id in rows && rows[id].source == source && Protected(rows[id].tags)
  }

  /** The rows that retention deletes. */
  function Pruned(rows: map<nat, ActivityRow>, source: string, limit: nat): set<nat> {
    set id | id in rows && rows[id].source == source && !AmongSourceNewest(rows, id, limit) && !Protected(rows[id].tags)
  }

  predicate QuotaRefuses(s: Store, row: ActivityRow, quota: Option<nat>) {
    Protected(row.tags) && quota.Some? && |ProtectedRows(s.activity, row.source)| >= quota.value
  }

  function InsertActivity(s: Store, row: ActivityRow, limit: Option<nat>, quota: Option<nat>): (Store, Option<nat>) {
    var stored := row.(tags := Canonical(row.tags));
    if QuotaRefuses(s, stored, quota) then (s, None)
    else
      var added := WithActivity(s, s.nextActivity, stored).(nextActivity := s.nextActivity + 1);
      var dead := if limit.Some? then Pruned(added.activity, row.source, limit.value) else {};
      (WithoutActivity(added, dead), Some(s.nextActivity))
  }

  // ---- Snapshot saves --------------------------------------------------------------------

  function FamilyOf(system: string, keys: set<string>): Family {
    if system != "codex" then General
    else if {"infrastructure", "automation_digest", "active_projects"} <= keys then Operating
    else if "consulted_node" in keys then ConsultedNode
    else Unclassified
  }

  function RowFamily(row: SnapshotRow): Family { FamilyOf(row.system, row.data.keys) }

  function FamilyStamps(rows: map<nat, SnapshotRow>, system: string, f: Family): set<Stamp> {
    set id | id in rows && rows[id].system == system && RowFamily(rows[id]) == f :: Stamp(rows[id].created, id)
  }

  predicate AmongFamilyNewest(rows: map<nat, SnapshotRow>, id: nat, limit: nat)
    requires id in rows
  {
    AmongNewest(FamilyStamps(rows, rows[id].system, RowFamily(rows[id])), Stamp(rows[id].created, id), limit)
  }

  /** The rows of the system that `prune_oldest` deletes. */
  function Doomed(rows: map<nat, SnapshotRow>, system: string, limit: nat): set<nat> {
    set id | id in rows && rows[id].system == system && !AmongFamilyNewest(rows, id, limit)
  }

  datatype Policy = PreserveExisting | PruneOldest

  datatype SaveOutcome = SkippedExistingSystem | RefusedFull | Saved(id: nat, pruned: set<nat>)

  function SaveSnapshot(s: Store, limit: nat, caller: string, row: SnapshotRow, policy: Policy, seed: bool)
    : (Store, SaveOutcome)
  {
    var retained := |FamilyStamps(s.snapshots, row.system, RowFamily(row))|;
    var preserve := policy.PreserveExisting? || seed;
    if seed && exists id :: id in s.snapshots && s.snapshots[id].system == row.system then (s, SkippedExistingSystem)
    else if preserve && retained >= limit then
      (s.(refusals := s.refusals + [Refusal(caller, row.system, RowFamily(row), retained)]), RefusedFull)
    else
      var added := WithSnapshot(s, s.nextSnapshot, row).(nextSnapshot := s.nextSnapshot + 1);
      if preserve then (added, Saved(s.nextSnapshot, {}))
      else
        var dead := Doomed(added.snapshots, row.system, limit);
        (WithoutSnapshots(added, dead), Saved(s.nextSnapshot, dead))
  }

  // ---- Disposition edits -----------------------------------------------------------------

  /** A synced disposition appends `PROCESSED` once and re-indexes the row. */
  function MarkProcessed(s: Store, id: nat): Store {
    if id in s.activity && !HasTag(s.activity[id].tags, "PROCESSED") then
      WithActivity(s, id, s.activity[id].(tags := s.activity[id].tags + ["PROCESSED"]))
    else s
  }

  // ---- Runs ------------------------------------------------------------------------------

  datatype Op =
    | Insert(row: ActivityRow, limit: Option<nat>, quota: Option<nat>)
    | Save(caller: string, snapshot: SnapshotRow, policy: Policy, seed: bool)
    | Process(id: nat)

  function Perform(s: Store, limit: nat, op: Op): Store {
    match op
    case Insert(row, keep, quota) => InsertActivity(s, row, keep, quota).0
    case Save(caller, row, policy, seed) => SaveSnapshot(s, limit, caller, row, policy, seed).0
    case Process(id) => MarkProcessed(s, id)
  }

  function Run(s: Store, limit: nat, ops: seq<Op>): Store
    decreases |ops|
  {
    if ops == [] then s else Run(Perform(s, limit, ops[0]), limit, ops[1..])
  }

  lemma PerformKeepsTheMirror(s: Store, limit: nat, op: Op)
    requires Mirrored(s)
    ensures Mirrored(Perform(s, limit, op))
  {
    hide Exact, Pruned, Doomed, HasTag, WithActivity, WithSnapshot, WithoutActivity, WithoutSnapshots, QuotaRefuses, FamilyStamps;
    match op {
      case Insert(row, keep, quota) =>
        var stored := row.(tags := Canonical(row.tags));
        if !QuotaRefuses(s, stored, quota) {
          var added := WithActivity(s, s.nextActivity, stored).(nextActivity := s.nextActivity + 1);
          WithActivityMirrors(s, s.nextActivity, stored);
          OnlyTheTablesMatter(WithActivity(s, s.nextActivity, stored), added);
          WithoutActivityMirrors(added, if keep.Some? then Pruned(added.activity, row.source, keep.value) else {});
        }
      case Save(caller, row, policy, seed) =>
        var added := WithSnapshot(s, s.nextSnapshot, row).(nextSnapshot := s.nextSnapshot + 1);
        WithSnapshotMirrors(s, s.nextSnapshot, row);
        OnlyTheTablesMatter(WithSnapshot(s, s.nextSnapshot, row), added);
        WithoutSnapshotsMirrors(added, Doomed(added.snapshots, row.system, limit));
        if SaveSnapshot(s, limit, caller, row, policy, seed).1.RefusedFull? {
          OnlyTheTablesMatter(s, Perform(s, limit, op));
        }
      case Process(id) =>
        if id in s.activity {
          WithActivityMirrors(s, id, s.activity[id].(tags := s.activity[id].tags + ["PROCESSED"]));
        }
    }
  }

  lemma OnlyTheTablesMatter(a: Store, b: Store)
    requires a.activity == b.activity && a.snapshots == b.snapshots && a.sections == b.sections && a.handoffs == b.handoffs
    ensures Sources(a) == Sources(b)
    ensures a.index == b.index ==> (Mirrored(a) <==> Mirrored(b))
  {
    hide Exact, Sources, ActivityText;
    forall k: Key
      ensures k in Sources(a) <==> k in Sources(b)
      ensures k in Sources(a) ==> Sources(a)[k] == Sources(b)[k]
    {
      SourceAt(a, k);
      SourceAt(b, k);
    }
    assert Sources(a) == Sources(b);
  }

  /** Any run of inserts with pruning, snapshot saves with pruning and disposition tag
      edits keeps the index the exact mirror of its source rows. */
  lemma {:induction false} RunsKeepTheMirror(s: Store, limit: nat, ops: seq<Op>)
    requires Mirrored(s)
    ensures Mirrored(Run(s, limit, ops))
    decreases |ops|
  {
    hide Perform, Mirrored;
    if ops != [] {
      PerformKeepsTheMirror(s, limit, ops[0]);
      RunsKeepTheMirror(Perform(s, limit, ops[0]), limit, ops[1..]);
    }
  }

  /** So the index is, row for row, what a rebuild from the source rows would make it. */
  lemma MaintainedEqualsRebuilt(s: Store, limit: nat, ops: seq<Op>, rebuilt: Index)
    requires Mirrored(s) && Exact(Sources(Run(s, limit, ops)), rebuilt)
    ensures multiset(rebuilt) == multiset(Run(s, limit, ops).index)
  {
    hide Exact, Sources, Run;
    RunsKeepTheMirror(s, limit, ops);
    ExactIsUnique(Sources(Run(s, limit, ops)), rebuilt, Run(s, limit, ops).index);
  }

  // ---- Activity retention over runs -------------------------------------------------------

  predicate CanonicalRows(s: Store) { forall id :: id in s.activity ==> CanonicalRow(s.activity[id]) }

  lemma ProcessedIsFreeForm()
    ensures !ProtectedTag("PROCESSED")
  {
    assert Upper("PROCESSED") == "PROCESSED";
  }

  lemma ProcessedFacts(tags: seq<string>)
    ensures Protected(tags + ["PROCESSED"]) <==> Protected(tags)
    ensures Canonical(tags) == tags ==> Canonical(tags + ["PROCESSED"]) == tags + ["PROCESSED"]
  {
    hide ProtectedTag;
    var more := tags + ["PROCESSED"];
    ProcessedIsFreeForm();
    if Protected(tags) {
      var i :| 0 <= i < |tags| && ProtectedTag(tags[i]);
      assert ProtectedTag(more[i]);
    }
    if Protected(more) {
      var i :| 0 <= i < |more| && ProtectedTag(more[i]);
      assert i < |tags| && ProtectedTag(tags[i]);
    }
    if Canonical(tags) == tags {
      forall i | 0 <= i < |more| ensures Canonical(more)[i] == more[i] {
        assert i < |tags| ==> Canonical(tags)[i] == tags[i];
      }
    }
  }

  predicate CanonicalRow(row: ActivityRow) { Canonical(row.tags) == row.tags }

  /** Only retention can remove a row, and never a protected one; what stays keeps its
      source, text and protection. */
  predicate SameButTags(before: ActivityRow, after: ActivityRow) {
    && (Protected(after.tags) <==> Protected(before.tags))
    && after.(tags := []) == before.(tags := [])
  }

  predicate KeepsRow(before: map<nat, ActivityRow>, after: map<nat, ActivityRow>, id: nat) {
    && (id in before && Protected(before[id].tags) ==> id in after)
    && (id in before && id in after ==> SameButTags(before[id], after[id]))
  }

  lemma InsertKeepsRows(s: Store, row: ActivityRow, limit: Option<nat>, quota: Option<nat>, id: nat)
    requires Valid(s)
    ensures
      var after := InsertActivity(s, row, limit, quota).0;
      && Valid(after) && (CanonicalRows(s) ==> CanonicalRows(after)) && KeepsRow(s.activity, after.activity, id)
      && (id != s.nextActivity && id in after.activity ==> id in s.activity)
  {
    hide Protected, Canonical, AmongSourceNewest, ActivityText, Upserted, Gc, ProtectedRows;
    ReadersAgree(row.tags);
    var stored := row.(tags := Canonical(row.tags));
    assert CanonicalRow(stored);
    var added := s.activity[s.nextActivity := stored];
    assert KeepsRow(s.activity, added, id);
  }

  lemma ProcessKeepsRows(s: Store, who: nat, id: nat)
    requires Valid(s)
    ensures
      var after := MarkProcessed(s, who);
      && Valid(after) && (CanonicalRows(s) ==> CanonicalRows(after)) && KeepsRow(s.activity, after.activity, id)
      && (id in after.activity ==> id in s.activity)
  {
    hide Protected, Canonical, ActivityText, Upserted, HasTag;
    if who in s.activity {
      assert CanonicalRows(s) ==> CanonicalRow(s.activity[who]);
      ProcessedFacts(s.activity[who].tags);
    }
  }

  lemma SaveKeepsRows(s: Store, limit: nat, caller: string, row: SnapshotRow, policy: Policy, seed: bool)
    requires Valid(s)
    ensures
      var after := SaveSnapshot(s, limit, caller, row, policy, seed).0;
      Valid(after) && after.activity == s.activity
  {
    hide AmongFamilyNewest, Upserted, Gc, FamilyStamps;
  }

  lemma PerformKeepsRows(s: Store, limit: nat, op: Op, id: nat)
    requires Valid(s)
    ensures
      var after := Perform(s, limit, op);
      && Valid(after) && (CanonicalRows(s) ==> CanonicalRows(after)) && KeepsRow(s.activity, after.activity, id)
      && (id != s.nextActivity && id in after.activity ==> id in s.activity)
  {
    hide Valid, CanonicalRow, Protected, InsertActivity, SaveSnapshot, MarkProcessed;
    match op
    case Insert(row, keep, quota) => InsertKeepsRows(s, row, keep, quota, id);
    case Save(caller, row, policy, seed) => SaveKeepsRows(s, limit, caller, row, policy, seed);
    case Process(who) => ProcessKeepsRows(s, who, id);
  }

  /** A protected row, once stored, is there after every run, still protected. */
  lemma {:induction false} ProtectedRowsSurvive(s: Store, limit: nat, ops: seq<Op>, id: nat)
    requires Valid(s) && id in s.activity && Protected(s.activity[id].tags)
    ensures id in Run(s, limit, ops).activity && Protected(Run(s, limit, ops).activity[id].tags)
    ensures Run(s, limit, ops).activity[id].(tags := []) == s.activity[id].(tags := [])
    decreases |ops|
  {
    hide Perform, Protected, Valid, CanonicalRows;
    if ops != [] {
      PerformKeepsRows(s, limit, ops[0], id);
      ProtectedRowsSurvive(Perform(s, limit, ops[0]), limit, ops[1..], id);
    }
  }

  /** Starting from canonical rows, every exact-case reader and the case-insensitive
      retention agree on every row after every run. */
  lemma {:induction false} ReadersAgreeAfterRuns(s: Store, limit: nat, ops: seq<Op>, id: nat)
    requires Valid(s) && CanonicalRows(s)
    ensures
      var after := Run(s, limit, ops).activity;
      id in after ==> (Protected(after[id].tags) <==> "SHIPPED" in after[id].tags || "LEDGER" in after[id].tags)
    decreases |ops|
  {
    if ops == [] {
      if id in s.activity {
        ReadersAgree(s.activity[id].tags);
        assert CanonicalRow(s.activity[id]);
      }
    } else {
      hide Perform, Protected, Valid, CanonicalRows;
      PerformKeepsRows(s, limit, ops[0], id);
      ReadersAgreeAfterRuns(Perform(s, limit, ops[0]), limit, ops[1..], id);
    }
  }

  /** One call's inserts are checked against the quota of this source. */
  predicate QuotaChecked(op: Op, source: string, quota: nat) {
    op.Insert? && op.row.source == source && Protected(op.row.tags) ==> op.quota == Some(quota)
  }

  lemma PerformKeepsTheQuota(s: Store, limit: nat, op: Op, source: string, quota: nat)
    requires Valid(s) && QuotaChecked(op, source, quota)
    requires |ProtectedRows(s.activity, source)| <= quota
    ensures |ProtectedRows(Perform(s, limit, op).activity, source)| <= quota
  {
    var after := Perform(s, limit, op).activity;
    var before := ProtectedRows(s.activity, source);
    var newest := s.nextActivity;
    forall id | id in ProtectedRows(after, source) && id != newest ensures id in before {
      PerformKeepsRows(s, limit, op, id);
    }
    if newest in ProtectedRows(after, source) {
      NewProtectedRow(s, limit, op, source, quota);
      assert ProtectedRows(after, source) <= before + {newest};
      SubsetSize(ProtectedRows(after, source), before + {newest});
    } else {
      SubsetSize(ProtectedRows(after, source), before);
    }
  }

  lemma NewProtectedRow(s: Store, limit: nat, op: Op, source: string, quota: nat)
    requires Valid(s) && QuotaChecked(op, source, quota)
    requires s.nextActivity in ProtectedRows(Perform(s, limit, op).activity, source)
    ensures |ProtectedRows(s.activity, source)| < quota
  {
    hide Protected, Canonical, AmongSourceNewest, AmongFamilyNewest, ActivityText, Upserted, Gc, FamilyStamps, HasTag;
    if op.Insert? { ReadersAgree(op.row.tags); }
  }

  lemma SubsetSize<T>(a: set<T>, b: set<T>)
    requires a <= b
    ensures |a| <= |b|
  {
    if a != {} {
      var x :| x in a;
      SubsetSize(a - {x}, b - {x});
    }
  }

  /** If every protected insert is checked against the quota, no run passes it. */
  lemma {:induction false} RunsKeepTheQuota(s: Store, limit: nat, ops: seq<Op>, source: string, quota: nat)
    requires Valid(s) && |ProtectedRows(s.activity, source)| <= quota
    requires forall i :: 0 <= i < |ops| ==> QuotaChecked(ops[i], source, quota)
    ensures |ProtectedRows(Run(s, limit, ops).activity, source)| <= quota
    decreases |ops|
  {
    hide Perform, Protected, Valid, CanonicalRows, ProtectedRows, QuotaChecked;
    if ops != [] {
      PerformKeepsTheQuota(s, limit, ops[0], source, quota);
      PerformKeepsRows(s, limit, ops[0], 0);
      RunsKeepTheQuota(Perform(s, limit, ops[0]), limit, ops[1..], source, quota);
    }
  }

  // ---- What one call deletes ---------------------------------------------------------------

  /** An accepted insert under retention keeps every row of other sources, every protected
      row, and of the rest exactly those among the source's newest `keep`. */
  lemma RetentionIsExact(s: Store, row: ActivityRow, keep: nat, quota: Option<nat>, id: nat)
    requires Valid(s) && !QuotaRefuses(s, row.(tags := Canonical(row.tags)), quota)
    ensures
      var offered := s.activity[s.nextActivity := row.(tags := Canonical(row.tags))];
      var after := InsertActivity(s, row, Some(keep), quota).0.activity;
      && (id in after <==>
            && id in offered
            && (offered[id].source != row.source || Protected(offered[id].tags) || AmongSourceNewest(offered, id, keep)))
      && (id in after ==> after[id] == offered[id])
  {
    hide AmongSourceNewest, Protected, Canonical, ActivityText, Upserted, Gc, ProtectedRows;
    var stored := row.(tags := Canonical(row.tags));
    var offered := s.activity[s.nextActivity := stored];
    var dead := Pruned(offered, row.source, keep);
    assert WithActivity(s, s.nextActivity, stored).activity == offered;
    assert InsertActivity(s, row, Some(keep), quota).0.activity == offered - dead;
  }

  lemma InsertRefusedIffQuotaFull(s: Store, row: ActivityRow, keep: Option<nat>, quota: Option<nat>)
    ensures InsertActivity(s, row, keep, quota).1.None? <==>
      Protected(row.tags) && quota.Some? && |ProtectedRows(s.activity, row.source)| >= quota.value
    ensures InsertActivity(s, row, keep, quota).1.None? ==> InsertActivity(s, row, keep, quota).0 == s
  {
    hide Protected, Canonical, Pruned, WithActivity, WithoutActivity;
    ReadersAgree(row.tags);
  }

  // ---- Snapshot retention ------------------------------------------------------------------

  ghost predicate WithinLimit(s: Store, limit: nat) {
    forall system, f :: |FamilyStamps(s.snapshots, system, f)| <= limit
  }

  lemma AddedStamps(rows: map<nat, SnapshotRow>, id: nat, row: SnapshotRow, system: string, f: Family)
    requires id !in rows
    ensures FamilyStamps(rows[id := row], system, f)
      == FamilyStamps(rows, system, f) + if row.system == system && RowFamily(row) == f then {Stamp(row.created, id)} else {}
  {
    var grown := rows[id := row];
    forall x | x in FamilyStamps(grown, system, f)
      ensures x in FamilyStamps(rows, system, f) || (x == Stamp(row.created, id) && row.system == system && RowFamily(row) == f)
    {
      assert x.id in grown;
    }
    forall x | x in FamilyStamps(rows, system, f) ensures x in FamilyStamps(grown, system, f) {
      assert x.id in rows && grown[x.id] == rows[x.id];
    }
    if row.system == system && RowFamily(row) == f {
      assert id in grown && Stamp(row.created, id) in FamilyStamps(grown, system, f);
    }
  }

  /** What `prune_oldest` leaves of a family of its system: the newest `limit` rows. */
  lemma KeptStamps(rows: map<nat, SnapshotRow>, system: string, limit: nat, f: Family)
    ensures
      var all := FamilyStamps(rows, system, f);
      FamilyStamps(rows - Doomed(rows, system, limit), system, f) == set x | x in all && AmongNewest(all, x, limit)
  {
    hide AmongNewest;
    var all := FamilyStamps(rows, system, f);
    var kept := rows - Doomed(rows, system, limit);
    forall x | x in all ensures x in FamilyStamps(kept, system, f) <==> AmongNewest(all, x, limit) {
      assert x.id in rows && x == Stamp(rows[x.id].created, x.id);
      assert x.id in kept <==> AmongFamilyNewest(rows, x.id, limit);
    }
    forall x | x in FamilyStamps(kept, system, f) ensures x in all { assert x.id in kept; }
  }

  lemma OtherSystemsKept(rows: map<nat, SnapshotRow>, system: string, limit: nat, other: string, f: Family)
    requires other != system
    ensures FamilyStamps(rows - Doomed(rows, system, limit), other, f) == FamilyStamps(rows, other, f)
  {
    hide AmongFamilyNewest, RowFamily;
    var kept := rows - Doomed(rows, system, limit);
    forall x ensures x in FamilyStamps(kept, other, f) <==> x in FamilyStamps(rows, other, f) {
      assert x.id in kept && rows[x.id].system == other <==> x.id in rows && rows[x.id].system == other;
    }
  }

  /** `prune_oldest`: of each family of the system exactly the newest `limit` rows stay,
      the saved one competing with the others; every other system is untouched. */
  lemma PruneOldestIsExact(s: Store, limit: nat, caller: string, row: SnapshotRow, system: string, f: Family)
    requires Valid(s)
    ensures
      var offered := s.snapshots[s.nextSnapshot := row];
      var all := FamilyStamps(offered, system, f);
      var after := SaveSnapshot(s, limit, caller, row, PruneOldest, false).0.snapshots;
      && (system == row.system ==> FamilyStamps(after, system, f) == set x | x in all && AmongNewest(all, x, limit))
      && (system == row.system ==> |FamilyStamps(after, system, f)| == if limit < |all| then limit else |all|)
      && (system != row.system ==> FamilyStamps(after, system, f) == all)
      && (forall id :: id in after ==> id in offered && after[id] == offered[id])
  {
    hide AmongNewest, FamilyStamps, Upserted, Gc, RowFamily;
    var offered := s.snapshots[s.nextSnapshot := row];
    if system == row.system {
      KeptStamps(offered, system, limit, f);
      KeptCount(FamilyStamps(offered, system, f), limit);
    } else {
      OtherSystemsKept(offered, row.system, limit, system, f);
    }
  }

  /** `preserve_existing` never deletes a row, and refuses exactly when the family is full. */
  lemma PreserveNeverDeletes(s: Store, limit: nat, caller: string, row: SnapshotRow, seed: bool)
    requires Valid(s)
    ensures
      var (after, outcome) := SaveSnapshot(s, limit, caller, row, PreserveExisting, seed);
      && (forall id :: id in s.snapshots ==> id in after.snapshots && after.snapshots[id] == s.snapshots[id])
      && (forall id :: id in after.snapshots && id !in s.snapshots ==> outcome == Saved(id, {}) && after.snapshots[id] == row)
      && (!seed ==> (outcome.RefusedFull? <==> |FamilyStamps(s.snapshots, row.system, RowFamily(row))| >= limit))
      && (outcome.RefusedFull? <==> |after.refusals| > |s.refusals|)
  {
    hide FamilyStamps, Upserted, RowFamily;
  }

  /** No call, whatever its policy, takes a family past the limit. */
  lemma SaveKeepsWithinLimit(s: Store, limit: nat, caller: string, row: SnapshotRow, policy: Policy, seed: bool)
    requires Valid(s) && WithinLimit(s, limit)
    ensures WithinLimit(SaveSnapshot(s, limit, caller, row, policy, seed).0, limit)
  {
    var after := SaveSnapshot(s, limit, caller, row, policy, seed).0;
    forall system, f ensures |FamilyStamps(after.snapshots, system, f)| <= limit {
      hide AmongNewest, FamilyStamps, Upserted, Gc, RowFamily, Doomed;
      var offered := s.snapshots[s.nextSnapshot := row];
      AddedStamps(s.snapshots, s.nextSnapshot, row, system, f);
      if system == row.system {
        KeptStamps(offered, system, limit, f);
        KeptCount(FamilyStamps(offered, system, f), limit);
      } else {
        OtherSystemsKept(offered, row.system, limit, system, f);
      }
    }
  }

  /** Every family of every system stays within the limit over every run. */
  lemma {:induction false} RunsKeepWithinLimit(s: Store, limit: nat, ops: seq<Op>)
    requires Valid(s) && WithinLimit(s, limit)
    ensures WithinLimit(Run(s, limit, ops), limit)
    decreases |ops|
  {
    if ops != [] {
      var next := Perform(s, limit, ops[0]);
      PerformKeepsRows(s, limit, ops[0], 0);
      if ops[0].Save? {
        SaveKeepsWithinLimit(s, limit, ops[0].caller, ops[0].snapshot, ops[0].policy, ops[0].seed);
      }
      assert !ops[0].Save? ==> next.snapshots == s.snapshots;
      hide FamilyStamps, Perform, CanonicalRows;
      assert WithinLimit(next, limit);
      RunsKeepWithinLimit(next, limit, ops[1..]);
    }
  }
}
