// Activity and snapshot rows with their full-text mirror: inserts under retention and
// quota, snapshot saves under a per-family limit, and tag edits.

module ContentTables {
  import opened Common
  import opened FtsIndex
  import opened NewestRows

  datatype ActivityRow = ActivityRow(
    source: string, created: int, project: string, summary: string, branch: Option<string>, tags: seq<string>)

  /** A snapshot's JSON text and the top-level keys that it decodes to. */
  datatype Payload = Payload(text: string, keys: set<string>)

  datatype SnapshotRow = SnapshotRow(system: string, created: int, data: Payload)

  datatype Refusal = Refusal(caller: string, system: string, family: Family, retained: nat)

  /** The tables that feed `content_index`, and the index; ids are AUTOINCREMENT. */
  datatype Store = Store(
    activity: map<nat, ActivityRow>,
    snapshots: map<nat, SnapshotRow>,
    sections: map<nat, string>,
    handoffs: map<nat, string>,
    index: Index,
    nextActivity: nat,
    nextSnapshot: nat,
    refusals: seq<Refusal>)

  predicate Valid(s: Store) {
    && (forall id :: id in s.activity ==> id < s.nextActivity)
    && (forall id :: id in s.snapshots ==> id < s.nextSnapshot)
  }

  // ---- Tags ----------------------------------------------------------------------------

  function UpperChar(c: char): char { if 'a' <= c <= 'z' then (c as int - 32) as char else c }

  function Upper(tag: string): (u: string)
    ensures |u| == |tag| && forall i :: 0 <= i < |u| ==> u[i] == UpperChar(tag[i])
  {
    seq(|tag|, i requires 0 <= i < |tag| => UpperChar(tag[i]))
  }

  /** Some tag is this one in upper case. */
  predicate HasTag(tags: seq<string>, name: string) { exists i :: 0 <= i < |tags| && Upper(tags[i]) == name }

  predicate ProtectedTag(tag: string) { Upper(tag) == "SHIPPED" || Upper(tag) == "LEDGER" }

  predicate Protected(tags: seq<string>) { exists i :: 0 <= i < |tags| && ProtectedTag(tags[i]) }

  function CanonicalTag(tag: string): string { if ProtectedTag(tag) then Upper(tag) else tag }

  function Canonical(tags: seq<string>): (c: seq<string>)
    ensures |c| == |tags| && forall i :: 0 <= i < |c| ==> c[i] == CanonicalTag(tags[i])
  {
    seq(|tags|, i requires 0 <= i < |tags| => CanonicalTag(tags[i]))
  }

  lemma CanonicalTagFacts(tag: string)
    ensures ProtectedTag(tag) <==> CanonicalTag(tag) == "SHIPPED" || CanonicalTag(tag) == "LEDGER"
    ensures ProtectedTag(CanonicalTag(tag)) <==> ProtectedTag(tag)
    ensures CanonicalTag(CanonicalTag(tag)) == CanonicalTag(tag)
    ensures Upper(CanonicalTag(tag)) == Upper(tag) && (!ProtectedTag(tag) ==> CanonicalTag(tag) == tag)
  {
    assert Upper("SHIPPED") == "SHIPPED" && Upper("LEDGER") == "LEDGER";
    assert Upper(Upper(tag)) == Upper(tag);
  }

  /** Each letter of a tag may be in either case: the tag is read as this upper-case name
      exactly if every one of its characters is the name's letter, capital or small. */
  lemma CasingIsIgnored(tag: string, name: string)
    requires forall i :: 0 <= i < |name| ==> 'A' <= name[i] <= 'Z'
    ensures Upper(tag) == name <==>
      |tag| == |name| && forall i :: 0 <= i < |tag| ==> tag[i] == name[i] || tag[i] as int == name[i] as int + ('a' as int - 'A' as int)
  {
    if |tag| == |name| {
      forall i | 0 <= i < |tag|
        ensures UpperChar(tag[i]) == name[i] <==>
          tag[i] == name[i] || tag[i] as int == name[i] as int + ('a' as int - 'A' as int)
      {
      }
    }
  }

  /** After canonicalisation the exact-case readers and the case-insensitive retention
      agree: a row is protected exactly when it carries a registered upper-case tag. */
  lemma ReadersAgree(tags: seq<string>)
    ensures Protected(tags) <==> "SHIPPED" in Canonical(tags) || "LEDGER" in Canonical(tags)
    ensures Protected(Canonical(tags)) <==> Protected(tags)
    ensures Canonical(Canonical(tags)) == Canonical(tags)
    ensures forall i :: 0 <= i < |tags| ==>
      Upper(Canonical(tags)[i]) == Upper(tags[i]) && (!ProtectedTag(tags[i]) ==> Canonical(tags)[i] == tags[i])
  {
    hide ProtectedTag, CanonicalTag;
    var c := Canonical(tags);
    forall i | 0 <= i < |tags|
      ensures ProtectedTag(tags[i]) <==> c[i] == "SHIPPED" || c[i] == "LEDGER"
      ensures ProtectedTag(c[i]) <==> ProtectedTag(tags[i])
      ensures Canonical(c)[i] == c[i] && Upper(c[i]) == Upper(tags[i]) && (!ProtectedTag(tags[i]) ==> c[i] == tags[i])
    {
      CanonicalTagFacts(tags[i]);
    }
    if Protected(tags) {
      var i :| 0 <= i < |tags| && ProtectedTag(tags[i]);
      assert c[i] in c && ProtectedTag(c[i]);
    }
    if Protected(c) {
      var i :| 0 <= i < |c| && ProtectedTag(c[i]);
      assert ProtectedTag(tags[i]);
    }
  }

  // ---- Canonical text --------------------------------------------------------------------

  /** The parts, one per line. */
  function Joined(parts: seq<string>): string {
    if parts == [] then "" else if |parts| == 1 then parts[0] else parts[0] + "\n" + Joined(parts[1..])
  }

  function ActivityText(row: ActivityRow): string {
    Joined([row.project, row.summary]
           + (if row.branch.Some? && row.branch.value != "" then [row.branch.value] else []) + row.tags)
  }

  /** Each part on a line of its own, after what precedes it. */
  function Lines(parts: seq<string>): string {
    if parts == [] then "" else "\n" + parts[0] + Lines(parts[1..])
  }

  lemma {:induction false} JoinedIsLines(parts: seq<string>)
    requires parts != []
    ensures Joined(parts) == parts[0] + Lines(parts[1..])
  {
    if |parts| > 1 {
      JoinedIsLines(parts[1..]);
    }
  }

  lemma {:induction false} LinesAppend(a: seq<string>, b: seq<string>)
    ensures Lines(a + b) == Lines(a) + Lines(b)
  {
    if a == [] {
      assert a + b == b;
    } else {
      LinesAppend(a[1..], b);
      assert (a + b)[1..] == a[1..] + b;
    }
  }

  /** Project, summary, a branch that is not empty and every tag are in the indexed text, in
      this order, and nothing else is. */
  lemma EveryFieldIsIndexed(row: ActivityRow)
    ensures
      var shown := row.branch.Some? && |row.branch.value| > 0;
      ActivityText(row) == row.project + "\n" + row.summary + (if shown then "\n" + row.branch.value else "") + Lines(row.tags)
  {
    var shown := row.branch.Some? && |row.branch.value| > 0;
    var extra: seq<string> := if shown then [row.branch.value] else [];
    var parts := [row.project, row.summary] + extra + row.tags;
    JoinedIsLines(parts);
    assert parts[1..] == [row.summary] + (extra + row.tags);
    LinesAppend([row.summary], extra + row.tags);
    LinesAppend(extra, row.tags);
    assert Lines([row.summary]) == "\n" + row.summary + Lines([]);
    assert shown ==> Lines(extra) == "\n" + row.branch.value + Lines([]);
  }

  function IdsOf(s: Store, kind: Kind): set<nat> {
    match kind
    case Section => s.sections.Keys
    case Activity => s.activity.Keys
    case Snapshot => s.snapshots.Keys
    case Handoff => s.handoffs.Keys
  }

  function KeysOfKind(s: Store, kind: Kind): set<Key> { set id | id in IdsOf(s, kind) :: Key(kind, id) }

  function SourceKeys(s: Store): set<Key> {
    KeysOfKind(s, Section) + KeysOfKind(s, Activity) + KeysOfKind(s, Snapshot) + KeysOfKind(s, Handoff)
  }

  function TextOf(s: Store, key: Key): string
    requires key.id in IdsOf(s, key.kind)
  {
    match key.kind
    case Section => s.sections[key.id]
    case Activity => ActivityText(s.activity[key.id])
    case Snapshot => s.snapshots[key.id].data.text
    case Handoff => s.handoffs[key.id]
  }

  /** What the index should hold. */
  function Sources(s: Store): Expected { map key | key in SourceKeys(s) :: Some(TextOf(s, key)) }

  lemma SourceAt(s: Store, key: Key)
    ensures key in Sources(s) <==> key.id in IdsOf(s, key.kind)
    ensures key in Sources(s) ==> Sources(s)[key] == Some(TextOf(s, key))
  {
    assert key == Key(key.kind, key.id);
    assert key in SourceKeys(s) <==> key in KeysOfKind(s, key.kind);
  }

  /** The index is the exact mirror of its source tables. */
  ghost predicate Mirrored(s: Store) { Exact(Sources(s), s.index) }

  // ---- Edits and the mirror --------------------------------------------------------------

  function Gc(index: Index, kind: Kind, ids: set<nat>): Index {
    Keep(index, (e: Entry) => e.key.kind != kind || e.key.id in ids)
  }

  function WithActivity(s: Store, id: nat, row: ActivityRow): Store {
    s.(activity := s.activity[id := row], index := Upserted(s.index, Key(Activity, id), ActivityText(row)))
  }

  function WithSnapshot(s: Store, id: nat, row: SnapshotRow): Store {
    s.(snapshots := s.snapshots[id := row], index := Upserted(s.index, Key(Snapshot, id), row.data.text))
  }

  function WithoutActivity(s: Store, dead: set<nat>): Store {
    if dead == {} then s
    else s.(activity := s.activity - dead, index := Gc(s.index, Activity, s.activity.Keys - dead))
  }

  function WithoutSnapshots(s: Store, dead: set<nat>): Store {
    s.(snapshots := s.snapshots - dead, index := Gc(s.index, Snapshot, s.snapshots.Keys - dead))
  }

  /** The two stores index the same text for this source row, or neither has it. */
  predicate SameSource(before: Store, after: Store, k: Key) {
    && (k.id in IdsOf(after, k.kind) <==> k.id in IdsOf(before, k.kind))
    && (k.id in IdsOf(before, k.kind) ==> TextOf(after, k) == TextOf(before, k))
  }

  lemma UpsertMirrors(before: Store, after: Store, key: Key, text: string)
    requires Mirrored(before) && after.index == Upserted(before.index, key, text)
    requires forall k: Key :: k != key ==> SameSource(before, after, k)
    requires key.id in IdsOf(after, key.kind) && TextOf(after, key) == text
    ensures Mirrored(after)
  {
    hide Exact, Upserted, Sources, IdsOf, TextOf;
    var expected := Sources(before)[key := Some(text)];
    forall k: Key
      ensures k in Sources(after) <==> k in expected
      ensures k in expected ==> Sources(after)[k] == expected[k]
    {
      SourceAt(after, k);
      SourceAt(before, k);
      assert k != key ==> SameSource(before, after, k);
    }
    assert Sources(after) == expected;
    UpsertExact(Sources(before), before.index, key, text);
  }

  lemma GcMirrors(before: Store, after: Store, kind: Kind)
    requires Mirrored(before) && after.index == Gc(before.index, kind, IdsOf(after, kind))
    requires forall k: Key :: SameSource(before, after, k) || (k.kind == kind && k.id !in IdsOf(after, kind))
    ensures Mirrored(after)
  {
    hide Exact, Keep, Sources, IdsOf, TextOf;
    var ids := IdsOf(after, kind);
    forall k: Key
      ensures k in Sources(after) <==> k in Sources(before) && (k.kind != kind || k.id in ids)
      ensures k in Sources(after) ==> Sources(after)[k] == Sources(before)[k]
    {
      SourceAt(after, k);
      SourceAt(before, k);
      assert SameSource(before, after, k) || (k.kind == kind && k.id !in ids);
    }
    KeepExact(Sources(before), before.index, (e: Entry) => e.key.kind != kind || e.key.id in ids, Sources(after));
  }

  lemma WithActivityMirrors(s: Store, id: nat, row: ActivityRow)
    requires Mirrored(s)
    ensures Mirrored(WithActivity(s, id, row))
  {
    hide Exact, Upserted, Sources, ActivityText;
    UpsertMirrors(s, WithActivity(s, id, row), Key(Activity, id), ActivityText(row));
  }

  lemma WithSnapshotMirrors(s: Store, id: nat, row: SnapshotRow)
    requires Mirrored(s)
    ensures Mirrored(WithSnapshot(s, id, row))
  {
    hide Exact, Upserted, Sources, ActivityText;
    UpsertMirrors(s, WithSnapshot(s, id, row), Key(Snapshot, id), row.data.text);
  }

  lemma WithoutActivityMirrors(s: Store, dead: set<nat>)
    requires Mirrored(s)
    ensures Mirrored(WithoutActivity(s, dead))
  {
    hide Exact, Keep, Sources, ActivityText;
    if dead != {} {
      assert (s.activity - dead).Keys == s.activity.Keys - dead;
      GcMirrors(s, WithoutActivity(s, dead), Activity);
    }
  }

  lemma WithoutSnapshotsMirrors(s: Store, dead: set<nat>)
    requires Mirrored(s)
    ensures Mirrored(WithoutSnapshots(s, dead))
  {
    hide Exact, Keep, Sources, ActivityText;
    assert (s.snapshots - dead).Keys == s.snapshots.Keys - dead;
    GcMirrors(s, WithoutSnapshots(s, dead), Snapshot);
  }
}
