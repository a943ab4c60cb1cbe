// The derived full-text index against its source rows: when it is exact, which edits
// keep it exact, and what the consistency metrics prove.

module FtsIndex {
  import opened Common

  datatype Kind = Section | Activity | Snapshot | Handoff

  /** `(source_type, source_id)`; section names are numbered. */
  datatype Key = Key(kind: Kind, id: nat)

  datatype Entry = Entry(key: Key, text: string)

  /** The rows of `content_index`, duplicates and all. */
  type Index = seq<Entry>

  /** The canonical text of every source row; a row whose tags do not parse has none. */
  type Expected = map<Key, Option<string>>

  function KeysOf(index: Index): set<Key> { set i | 0 <= i < |index| :: index[i].key }

  predicate Distinct(index: Index) { forall i, k :: 0 <= i < k < |index| ==> index[i].key != index[k].key }

  predicate Correct(expected: Expected, e: Entry) { e.key in expected && expected[e.key] == Some(e.text) }

  /** Exactly one row, and the right one, per source row; nothing else. */
  ghost predicate Exact(expected: Expected, index: Index) {
    && (forall i :: 0 <= i < |index| ==> Correct(expected, index[i]))
    && Distinct(index)
    && expected.Keys <= KeysOf(index)
  }

  // ---- Edits -------------------------------------------------------------------------

  function Keep(index: Index, p: Entry -> bool): Index {
    if index == [] then []
    else (if p(index[0]) then [index[0]] else []) + Keep(index[1..], p)
  }

  lemma {:induction false} KeepMembers(index: Index, p: Entry -> bool, e: Entry)
    ensures e in Keep(index, p) <==> e in index && p(e)
  {
    if index != [] {
      KeepMembers(index[1..], p, e);
      assert index == [index[0]] + index[1..];
    }
  }

  lemma {:induction false} KeepDistinct(index: Index, p: Entry -> bool)
    requires Distinct(index)
    ensures Distinct(Keep(index, p))
  {
    if index != [] {
      var rest := Keep(index[1..], p);
      KeepDistinct(index[1..], p);
      forall i | 0 <= i < |rest| ensures rest[i].key != index[0].key {
        KeepMembers(index[1..], p, rest[i]);
        var k :| 0 <= k < |index[1..]| && index[1..][k] == rest[i];
        assert index[k + 1] == rest[i];
      }
    }
  }

  /** Dropping rows of an exact index leaves it exact for the keys that remain. */
  lemma KeepExact(expected: Expected, index: Index, p: Entry -> bool, smaller: Expected)
    requires Exact(expected, index)
    requires smaller.Keys <= expected.Keys && forall k :: k in smaller ==> smaller[k] == expected[k]
    requires forall e :: Correct(expected, e) ==> (p(e) <==> e.key in smaller)
    ensures Exact(smaller, Keep(index, p))
  {
    var kept := Keep(index, p);
    KeepDistinct(index, p);
    forall i | 0 <= i < |kept| ensures Correct(smaller, kept[i]) { KeepMembers(index, p, kept[i]); }
    forall k | k in smaller ensures k in KeysOf(kept) {
      assert k in KeysOf(index);
      var i :| 0 <= i < |index| && index[i].key == k;
      KeepMembers(index, p, index[i]);
      var j :| 0 <= j < |kept| && kept[j] == index[i];
    }
  }

  function Upserted(index: Index, key: Key, text: string): Index {
    Keep(index, (e: Entry) => e.key != key) + [Entry(key, text)]
  }

  /** Delete-then-insert keeps the index exact for the updated source row. */
  lemma UpsertExact(expected: Expected, index: Index, key: Key, text: string)
    requires Exact(expected, index)
    ensures Exact(expected[key := Some(text)], Upserted(index, key, text))
  {
    var p := (e: Entry) => e.key != key;
    var kept := Keep(index, p);
    KeepExact(expected, index, p, expected - {key});
    var after := Upserted(index, key, text);
    forall k | k in expected[key := Some(text)] ensures k in KeysOf(after) {
      if k == key {
        assert after[|kept|].key == key;
      } else {
        assert k in KeysOf(kept);
        var i :| 0 <= i < |kept| && kept[i].key == k;
        assert after[i].key == k;
      }
    }
  }

  /** Two exact indexes hold the same rows: any maintained index is what a rebuild gives. */
  lemma {:induction false} ExactIsUnique(expected: Expected, a: Index, b: Index)
    requires Exact(expected, a) && Exact(expected, b)
    ensures multiset(a) == multiset(b)
  {
    forall e ensures multiset(a)[e] == multiset(b)[e] {
      DistinctCounts(a, e);
      DistinctCounts(b, e);
      if Correct(expected, e) {
        InExact(expected, a, e);
        InExact(expected, b, e);
      }
    }
  }

  lemma InExact(expected: Expected, index: Index, e: Entry)
    requires Exact(expected, index) && Correct(expected, e)
    ensures e in index
  {
    assert e.key in KeysOf(index);
    var i :| 0 <= i < |index| && index[i].key == e.key;
    assert Correct(expected, index[i]) && index[i] == e;
  }

  lemma {:induction false} DistinctCounts(index: Index, e: Entry)
    requires Distinct(index)
    ensures multiset(index)[e] == if e in index then 1 else 0
  {
    if index != [] {
      assert index == [index[0]] + index[1..];
      DistinctCounts(index[1..], e);
    }
  }

  // ---- Metrics --------------------------------------------------------------------------

  function OfKind(expected: Expected, kind: Kind): Expected { map k | k in expected && k.kind == kind :: expected[k] }

  function RowsOf(index: Index, kind: Kind): Index { Keep(index, (e: Entry) => e.key.kind == kind) }

  datatype Metrics = Metrics(expected: nat, indexed: nat, missing: nat, orphaned: nat, mismatched: nat)

  predicate Ok(m: Metrics) {
    m.expected == m.indexed && m.missing == 0 && m.orphaned == 0 && m.mismatched == 0
  }

  predicate Orphan(expected: Expected, e: Entry) { e.key !in expected }

  predicate Wrong(expected: Expected, e: Entry) { e.key in expected && expected[e.key] != Some(e.text) }

  ghost predicate KindExact(expected: Expected, index: Index, kind: Kind) {
    Exact(OfKind(expected, kind), RowsOf(index, kind))
  }

  /** The metrics of one source type: they are all well exactly when that type is exact. */
  method CollectKind(expected: Expected, index: Index, kind: Kind) returns (m: Metrics)
    ensures m.expected == |OfKind(expected, kind)| && m.indexed == |RowsOf(index, kind)|
    ensures m.missing == |OfKind(expected, kind).Keys - KeysOf(RowsOf(index, kind))|
    ensures Ok(m) <==> KindExact(expected, index, kind)
  {
    var source, rows := OfKind(expected, kind), RowsOf(index, kind);
    var missing := source.Keys - KeysOf(rows);
    var orphaned, mismatched := 0, 0;
    var i := 0;
    while i < |rows|
      invariant 0 <= i <= |rows|
      invariant orphaned == 0 <==> forall k :: 0 <= k < i ==> !Orphan(source, rows[k])
      invariant mismatched == 0 <==> forall k :: 0 <= k < i ==> !Wrong(source, rows[k])
    {
      if rows[i].key !in source { orphaned := orphaned + 1; }
      else if source[rows[i].key] != Some(rows[i].text) { mismatched := mismatched + 1; }
      i := i + 1;
    }
    m := Metrics(|source|, |rows|, |missing|, orphaned, mismatched);
    EmptyDifference(source.Keys, KeysOf(rows));
    BalancedIffExact(source, rows);
    assert orphaned == 0 <==> forall e :: e in rows ==> !Orphan(source, e);
    assert mismatched == 0 <==> forall e :: e in rows ==> !Wrong(source, e);
  }

  lemma KeysOfCons(index: Index)
    requires index != []
    ensures KeysOf(index) == KeysOf(index[1..]) + {index[0].key}
  {
    var rest := index[1..];
    forall k | k in KeysOf(index) ensures k in KeysOf(rest) + {index[0].key} {
      var i :| 0 <= i < |index| && index[i].key == k;
      if i > 0 { assert rest[i - 1].key == k; }
    }
    forall k | k in KeysOf(rest) ensures k in KeysOf(index) {
      var i :| 0 <= i < |rest| && rest[i].key == k;
      assert index[i + 1].key == k;
    }
  }

  /** As many rows as keys, and every key among them: then no key is there twice. */
  lemma {:induction false} CountsForceDistinct(index: Index, keys: set<Key>)
    requires |index| == |keys| && KeysOf(index) == keys
    ensures Distinct(index)
  {
    if index != [] {
      var rest := index[1..];
      KeysOfCons(index);
      KeysOfSize(rest);
      assert index[0].key in KeysOf(rest) ==> KeysOf(index) == KeysOf(rest);
      CountsForceDistinct(rest, KeysOf(rest));
      forall i | 0 < i < |index| ensures index[i].key != index[0].key { assert rest[i - 1].key in KeysOf(rest); }
    }
  }

  lemma {:induction false} KeysOfSize(index: Index)
    ensures |KeysOf(index)| <= |index|
  {
    if index != [] {
      var rest := index[1..];
      KeysOfSize(rest);
      KeysOfCons(index);
    } else {
      assert KeysOf(index) == {};
    }
  }

  lemma {:induction false} DistinctKeysSize(index: Index)
    requires Distinct(index)
    ensures |KeysOf(index)| == |index|
  {
    if index != [] {
      var rest := index[1..];
      DistinctKeysSize(rest);
      assert index[0].key !in KeysOf(rest);
      KeysOfCons(index);
    } else {
      assert KeysOf(index) == {};
    }
  }

  predicate Balanced(source: Expected, rows: Index) {
    && |source| == |rows| && source.Keys <= KeysOf(rows)
    && (forall e :: e in rows ==> !Orphan(source, e)) && (forall e :: e in rows ==> !Wrong(source, e))
  }

  /** Pigeonhole: equal counts, nothing missing, nothing orphaned and no wrong text
      together say, and are needed to say, that the index is exact. */
  lemma BalancedIffExact(source: Expected, rows: Index)
    ensures Balanced(source, rows) <==> Exact(source, rows)
  {
    if Exact(source, rows) {
      DistinctKeysSize(rows);
      assert KeysOf(rows) == source.Keys;
      assert |source| == |source.Keys|;
      forall e | e in rows ensures !Orphan(source, e) && !Wrong(source, e) { assert Correct(source, e); }
    }
    if Balanced(source, rows) {
      forall k | k in KeysOf(rows) ensures k in source.Keys {
        var i :| 0 <= i < |rows| && rows[i].key == k;
        assert !Orphan(source, rows[i]);
      }
      CountsForceDistinct(rows, source.Keys);
      forall i | 0 <= i < |rows| ensures Correct(source, rows[i]) {
        assert !Orphan(source, rows[i]) && !Wrong(source, rows[i]);
      }
    }
  }

  /** `collect_fts_index_metrics`: ok if and only if the whole index is exact. */
  method CollectMetrics(expected: Expected, index: Index) returns (ok: bool)
    ensures ok <==> Exact(expected, index)
  {
    ok := true;
    var kinds := [Section, Activity, Snapshot, Handoff];
    var i := 0;
    while i < |kinds|
      invariant 0 <= i <= |kinds|
      invariant ok <==> forall k :: 0 <= k < i ==> KindExact(expected, index, kinds[k])
    {
      hide KindExact, Exact, Balanced, OfKind, RowsOf, KeysOf;
      var m := CollectKind(expected, index, kinds[i]);
      ok := ok && Ok(m);
      i := i + 1;
    }
    hide KindExact, Exact;
    if ok {
      forall kind: Kind ensures KindExact(expected, index, kind) {
        var k := match kind case Section => 0 case Activity => 1 case Snapshot => 2 case Handoff => 3;
        assert KindExact(expected, index, kinds[k]);
      }
    }
    ExactByKind(expected, index);
  }

  lemma EmptyDifference<T>(a: set<T>, b: set<T>)
    ensures |a - b| == 0 <==> a <= b
  {
    if a <= b { assert a - b == {}; }
    if |a - b| == 0 {
      forall x | x in a ensures x in b { assert x !in a - b; }
    }
  }

  lemma {:induction false} KeepCounts(index: Index, p: Entry -> bool, e: Entry)
    ensures multiset(Keep(index, p))[e] == if p(e) then multiset(index)[e] else 0
  {
    if index != [] {
      KeepCounts(index[1..], p, e);
      assert index == [index[0]] + index[1..];
    }
  }

  lemma TwoOccurrences(index: Index, i: nat, k: nat)
    requires i < k < |index| && index[i] == index[k]
    ensures multiset(index)[index[i]] >= 2
  {
    assert index == index[..k] + [index[k]] + index[k + 1..];
    assert index[..k][i] == index[i];
  }

  lemma RowIsCorrect(expected: Expected, index: Index, i: nat)
    requires i < |index| && Exact(OfKind(expected, index[i].key.kind), RowsOf(index, index[i].key.kind))
    ensures Correct(expected, index[i])
  {
    var kind := index[i].key.kind;
    KeepMembers(index, (e: Entry) => e.key.kind == kind, index[i]);
    var j :| 0 <= j < |RowsOf(index, kind)| && RowsOf(index, kind)[j] == index[i];
    assert Correct(OfKind(expected, kind), RowsOf(index, kind)[j]);
  }

  /** Exact as a whole is exact source type by source type. */
  lemma ExactByKind(expected: Expected, index: Index)
    ensures Exact(expected, index) <==> forall kind :: KindExact(expected, index, kind)
  {
    if Exact(expected, index) {
      forall kind ensures KindExact(expected, index, kind) {
        KeepExact(expected, index, (e: Entry) => e.key.kind == kind, OfKind(expected, kind));
      }
    }
    if forall kind :: KindExact(expected, index, kind) {
      forall i | 0 <= i < |index| ensures Correct(expected, index[i]) {
        assert KindExact(expected, index, index[i].key.kind);
        RowIsCorrect(expected, index, i);
      }
      forall i, k | 0 <= i < k < |index| ensures index[i].key != index[k].key {
        if index[i].key == index[k].key {
          var kind := index[i].key.kind;
          assert KindExact(expected, index, kind);
          TwoOccurrences(index, i, k);
          KeepCounts(index, (e: Entry) => e.key.kind == kind, index[i]);
          DistinctCounts(RowsOf(index, kind), index[i]);
        }
      }
      forall k | k in expected ensures k in KeysOf(index) {
        var rows := RowsOf(index, k.kind);
        assert KindExact(expected, index, k.kind);
        assert k in OfKind(expected, k.kind) && k in KeysOf(rows);
        var j :| 0 <= j < |rows| && rows[j].key == k;
        KeepMembers(index, (e: Entry) => e.key.kind == k.kind, rows[j]);
        var i :| 0 <= i < |index| && index[i] == rows[j];
      }
    }
  }
}
