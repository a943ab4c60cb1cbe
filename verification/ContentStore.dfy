// The database object: each method runs the statements of its source function in order
// and is proved against the specification functions of ContentRetention.

module ContentStore {
  import opened Common
  import opened FtsIndex
  import opened NewestRows
  import opened ContentTables
  import opened ContentRetention

  class Database {
    var activity: map<nat, ActivityRow>
    var snapshots: map<nat, SnapshotRow>
    var sections: map<nat, string>
    var handoffs: map<nat, string>
    var index: Index
    var nextActivity: nat
    var nextSnapshot: nat
    var refusals: seq<Refusal>
    const snapshotLimit: nat

    function Value(): Store
      reads this
    {
      Store(activity, snapshots, sections, handoffs, index, nextActivity, nextSnapshot, refusals)
    }

    constructor (snapshotLimit: nat)
      ensures Value() == Store(map[], map[], map[], map[], [], 1, 1, []) && this.snapshotLimit == snapshotLimit
      ensures Mirrored(Value())
    {
      this.snapshotLimit := snapshotLimit;
      activity, snapshots, sections, handoffs, index, refusals := map[], map[], map[], map[], [], [];
      nextActivity, nextSnapshot := 1, 1;
      new;
      assert Sources(Value()) == map[];
    }

    method UpsertEntry(key: Key, text: string)
      modifies this`index
      ensures index == Upserted(old(index), key, text)
    {
      index := Keep(index, (e: Entry) => e.key != key);
      index := index + [Entry(key, text)];
    }

    method GcOrphans(kind: Kind)
      modifies this`index
      ensures index == Gc(old(index), kind, IdsOf(old(Value()), kind))
    {
      var ids := IdsOf(Value(), kind);
      index := Keep(index, (e: Entry) => e.key.kind != kind || e.key.id in ids);
    }

    /** `insert_activity_row`: canonical tags, quota-checked insert, mirror row, then the
        retention DELETE ranked by `ORDER BY created_at DESC, id DESC LIMIT`. */
    method Insert(row: ActivityRow, limit: Option<nat>, quota: Option<nat>) returns (id: Option<nat>)
      modifies this
      ensures Value() == InsertActivity(old(Value()), row, limit, quota).0
      ensures id == InsertActivity(old(Value()), row, limit, quota).1
    {
      hide AmongNewest, Protected, Canonical, ProtectedRows, Pruned, Keep, ActivityText;
      var stored := row.(tags := Canonical(row.tags));
      if Protected(stored.tags) && quota.Some? && |ProtectedRows(activity, row.source)| >= quota.value { return None; }
      id := Some(nextActivity);
      activity, nextActivity := activity[nextActivity := stored], nextActivity + 1;
      UpsertEntry(Key(Activity, id.value), ActivityText(stored));
      if limit.Some? {
        var dead := OutsideNewest(row.source, limit.value);
        if dead != {} {
          activity := activity - dead;
          GcOrphans(Activity);
        }
      }
    }

    /** The rows that the retention DELETE matches. */
    method OutsideNewest(source: string, limit: nat) returns (dead: set<nat>)
      ensures dead == Pruned(activity, source, limit)
    {
      var stamps := SourceStamps(activity, source);
      var sorted := NewestFirst(stamps);
      var kept := sorted[..if limit < |sorted| then limit else |sorted|];
      dead := set id | id in activity && activity[id].source == source
                       && Stamp(activity[id].created, id) !in kept && !Protected(activity[id].tags);
      forall id | id in activity && activity[id].source == source
        ensures Stamp(activity[id].created, id) in kept <==> AmongSourceNewest(activity, id, limit)
      {
        LimitKeepsTheNewest(stamps, limit, Stamp(activity[id].created, id));
      }
    }

    /** `reindex_activity_fts` after a tag edit of `record_disposition`. */
    method Process(id: nat)
      modifies this
      ensures Value() == MarkProcessed(old(Value()), id)
    {
      if id in activity && !HasTag(activity[id].tags, "PROCESSED") {
        activity := activity[id := activity[id].(tags := activity[id].tags + ["PROCESSED"])];
        UpsertEntry(Key(Activity, id), ActivityText(activity[id]));
      }
    }

    /** `save_snapshot_record`, one transaction. */
    method SaveSnapshot(caller: string, row: SnapshotRow, policy: Policy, seed: bool) returns (outcome: SaveOutcome)
      modifies this
      ensures Value() == ContentRetention.SaveSnapshot(old(Value()), snapshotLimit, caller, row, policy, seed).0
      ensures outcome == ContentRetention.SaveSnapshot(old(Value()), snapshotLimit, caller, row, policy, seed).1
    {
      hide AmongNewest, FamilyStamps, RowFamily, Doomed, Keep;
      var retained := |FamilyStamps(snapshots, row.system, RowFamily(row))|;
      if seed && exists id :: id in snapshots && snapshots[id].system == row.system { return SkippedExistingSystem; }
      var preserve := policy.PreserveExisting? || seed;
      if preserve && retained >= snapshotLimit {
        refusals := refusals + [Refusal(caller, row.system, RowFamily(row), retained)];
        return RefusedFull;
      }
      var id := nextSnapshot;
      snapshots, nextSnapshot := snapshots[id := row], nextSnapshot + 1;
      UpsertEntry(Key(Snapshot, id), row.data.text);
      if preserve { return Saved(id, {}); }
      var dead := RowsToPrune(snapshots, row.system, snapshotLimit);
      snapshots := snapshots - dead;
      GcOrphans(Snapshot);
      outcome := Saved(id, dead);
    }

    /** `collect_fts_index_metrics` answers ok exactly when the index mirrors the tables. */
    method MetricsOk() returns (ok: bool)
      ensures ok <==> Mirrored(Value())
    {
      ok := CollectMetrics(Sources(Value()), index);
    }

    /** `repopulate_content_index`: whatever the index held, it becomes the exact mirror,
        and a maintained index already had the same rows. */
    method Repopulate()
      modifies this`index
      ensures Mirrored(Value())
      ensures old(Mirrored(Value())) ==> multiset(index) == multiset(old(index))
    {
      var rebuilt := Rebuilt(Value());
      if Exact(Sources(Value()), index) { ExactIsUnique(Sources(Value()), index, rebuilt); }
      index := rebuilt;
      OnlyTheTablesMatter(old(Value()), Value());
    }
  }

  /** The index holds the right row, once, for exactly these keys. */
  ghost predicate Partial(expected: Expected, index: Index, done: set<Key>) {
    && done <= expected.Keys && KeysOf(index) == done && Distinct(index)
    && forall i :: 0 <= i < |index| ==> Correct(expected, index[i])
  }

  lemma AppendRow(expected: Expected, index: Index, done: set<Key>, key: Key, text: string)
    requires Partial(expected, index, done) && key !in done
    requires key in expected && expected[key] == Some(text)
    ensures Partial(expected, index + [Entry(key, text)], done + {key})
  {
    var more := index + [Entry(key, text)];
    forall k ensures k in KeysOf(more) <==> k in done + {key} {
      if k in KeysOf(index) {
        var i :| 0 <= i < |index| && index[i].key == k;
        assert more[i].key == k;
      }
      assert more[|index|].key == key;
    }
    forall i | 0 <= i < |index| ensures more[i].key != key { assert index[i].key in KeysOf(index); }
  }

  ghost function KindKeys(expected: Expected, kinds: seq<Kind>): set<Key> { set k | k in expected && k.kind in kinds }

  lemma OneMoreKind(s: Store, kinds: seq<Kind>, i: nat)
    requires i < |kinds|
    ensures KindKeys(Sources(s), kinds[..i + 1]) == KindKeys(Sources(s), kinds[..i]) + KeysOfKind(s, kinds[i])
  {
    forall k: Key ensures k in KeysOfKind(s, kinds[i]) <==> k in Sources(s) && k.kind == kinds[i] {
      SourceAt(s, k);
      assert k == Key(k.kind, k.id);
    }
    assert kinds[..i + 1] == kinds[..i] + [kinds[i]];
  }

  /** The inserts of `repopulate_content_index`, table by table. */
  method Rebuilt(s: Store) returns (index: Index)
    ensures Exact(Sources(s), index)
  {
    index := [];
    var kinds := [Section, Activity, Snapshot, Handoff];
    var i := 0;
    while i < |kinds|
      invariant 0 <= i <= |kinds|
      invariant Partial(Sources(s), index, KindKeys(Sources(s), kinds[..i]))
    {
      hide Partial, Sources;
      OneMoreKind(s, kinds, i);
      index := RebuildKind(s, kinds[i], index, KindKeys(Sources(s), kinds[..i]));
      i := i + 1;
    }
    forall k | k in Sources(s) ensures k.kind in kinds[..i] {
      var n := match k.kind case Section => 0 case Activity => 1 case Snapshot => 2 case Handoff => 3;
      assert kinds[..i][n] == k.kind;
    }
  }

  /** The keys done before, and those of this table except for the ids still to come. */
  ghost function Written(s: Store, kind: Kind, done: set<Key>, ids: set<nat>): set<Key> {
    done + set k | k in KeysOfKind(s, kind) && k.id !in ids
  }

  /** The rows of one source table, in whatever order the SELECT gives them. */
  method RebuildKind(s: Store, kind: Kind, start: Index, ghost done: set<Key>) returns (index: Index)
    requires Partial(Sources(s), start, done) && done !! KeysOfKind(s, kind)
    ensures Partial(Sources(s), index, done + KeysOfKind(s, kind))
  {
    hide Partial, Sources;
    index := start;
    var ids := IdsOf(s, kind);
    assert Written(s, kind, done, ids) == done;
    while ids != {}
      invariant ids <= IdsOf(s, kind)
      invariant Partial(Sources(s), index, Written(s, kind, done, ids))
      decreases |ids|
    {
      hide Written, KeysOfKind;
      var id :| id in ids;
      NextRow(s, kind, index, done, ids, id);
      index := index + [Entry(Key(kind, id), TextOf(s, Key(kind, id)))];
      ids := ids - {id};
    }
    assert Written(s, kind, done, {}) == done + KeysOfKind(s, kind);
  }

  lemma NextRow(s: Store, kind: Kind, index: Index, done: set<Key>, ids: set<nat>, id: nat)
    requires done !! KeysOfKind(s, kind) && id in ids && ids <= IdsOf(s, kind)
    requires Partial(Sources(s), index, Written(s, kind, done, ids))
    ensures Partial(Sources(s), index + [Entry(Key(kind, id), TextOf(s, Key(kind, id)))], Written(s, kind, done, ids - {id}))
  {
    hide Partial, Sources;
    var key := Key(kind, id);
    SourceAt(s, key);
    assert key in KeysOfKind(s, kind);
    assert Written(s, kind, done, ids - {id}) == Written(s, kind, done, ids) + {key};
    AppendRow(Sources(s), index, Written(s, kind, done, ids), key, TextOf(s, key));
  }

  /** `_prune_snapshots`: the newest-first walk over the system's rows. */
  method RowsToPrune(rows: map<nat, SnapshotRow>, system: string, limit: nat) returns (dead: set<nat>)
    ensures dead == Doomed(rows, system, limit)
  {
    hide RowFamily, Doomed;
    var family := map id | id in rows && rows[id].system == system :: Stamp(rows[id].created, id) := RowFamily(rows[id]);
    var doomed := DoomedByFamily(family.Keys, family, limit);
    dead := set x | x in doomed :: x.id;
    forall x: Stamp | x.id in rows && rows[x.id].system == system && x == Stamp(rows[x.id].created, x.id)
      ensures x in family && family[x] == RowFamily(rows[x.id])
    {
    }
    DoomedIds(rows, system, limit, family, doomed);
  }

  lemma DoomedIds(rows: map<nat, SnapshotRow>, system: string, limit: nat, family: map<Stamp, Family>, doomed: set<Stamp>)
    requires forall x :: x in family.Keys <==>
               x.id in rows && rows[x.id].system == system && x == Stamp(rows[x.id].created, x.id)
    requires forall x :: x in family ==> family[x] == RowFamily(rows[x.id])
    requires doomed <= family.Keys && forall x :: x in family ==> Judged(family.Keys, family, limit, doomed, x)
    ensures (set x | x in doomed :: x.id) == Doomed(rows, system, limit)
  {
    hide AmongNewest, RowFamily;
    forall id | id in rows && rows[id].system == system
      ensures Stamp(rows[id].created, id) in doomed <==> !AmongFamilyNewest(rows, id, limit)
    {
      var x, f := Stamp(rows[id].created, id), RowFamily(rows[id]);
      assert family[x] == f && Judged(family.Keys, family, limit, doomed, x);
      forall y ensures y in InFamily(family.Keys, family, f) <==> y in FamilyStamps(rows, system, f) {
        if y in FamilyStamps(rows, system, f) { assert y in family; }
      }
      assert InFamily(family.Keys, family, f) == FamilyStamps(rows, system, f);
    }
    forall id ensures id in (set x | x in doomed :: x.id) <==> id in Doomed(rows, system, limit) {
      if id in Doomed(rows, system, limit) { assert Stamp(rows[id].created, id) in doomed; }
    }
  }
}
