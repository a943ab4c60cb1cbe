// `ORDER BY created_at DESC, id DESC`: the order by which rows are retained, its
// rank, and the loop that counts retained rows family by family.

module NewestRows {

  /** The sort key of a row; ids are unique, clock readings need not be. */
  datatype Stamp = Stamp(created: int, id: nat)

  predicate Newer(a: Stamp, b: Stamp) { a.created > b.created || (a.created == b.created && a.id > b.id) }

  function NewerThan(s: set<Stamp>, x: Stamp): set<Stamp> { set y | y in s && Newer(y, x) }

  function SetOf(xs: seq<Stamp>): set<Stamp> { set x | x in xs }

  /** Fewer than `limit` rows are newer: the meaning of being kept. */
  predicate AmongNewest(s: set<Stamp>, x: Stamp, limit: nat) { x in s && |NewerThan(s, x)| < limit }

  predicate IsNewest(s: set<Stamp>, x: Stamp) { x in s && forall y :: y in s && y != x ==> Newer(x, y) }

  lemma {:induction false} NewestExists(s: set<Stamp>)
    requires s != {}
    ensures exists x :: IsNewest(s, x)
  {
    var x :| x in s;
    if s == {x} {
      assert IsNewest(s, x);
    } else {
      NewestExists(s - {x});
      var y :| IsNewest(s - {x}, y);
      var top := if Newer(x, y) then x else y;
      forall z | z in s && z != top ensures Newer(top, z) {
        if z != x && z != y { assert z in s - {x}; }
      }
      assert IsNewest(s, top);
    }
  }

  function NewestFirst(s: set<Stamp>): seq<Stamp> {
    if s == {} then []
    else
      NewestExists(s);
      var top :| IsNewest(s, top);
      [top] + NewestFirst(s - {top})
  }

  lemma {:induction false} Sorted(s: set<Stamp>)
    ensures |NewestFirst(s)| == |s|
    ensures forall x :: x in NewestFirst(s) <==> x in s
    ensures forall i, k :: 0 <= i < k < |s| ==> Newer(NewestFirst(s)[i], NewestFirst(s)[k])
  {
    if s != {} {
      NewestExists(s);
      var top :| IsNewest(s, top) && NewestFirst(s) == [top] + NewestFirst(s - {top});
      Sorted(s - {top});
      var rest := NewestFirst(s - {top});
      forall i, k | 0 <= i < k < |s| ensures Newer(NewestFirst(s)[i], NewestFirst(s)[k]) {
        assert NewestFirst(s)[k] == rest[k - 1] && rest[k - 1] in s - {top};
        assert i > 0 ==> NewestFirst(s)[i] == rest[i - 1];
      }
    }
  }

  /** The sorted rows hold every row once, each behind exactly the rows newer than it. */
  lemma PositionIsRank(s: set<Stamp>, i: nat)
    requires i < |s|
    ensures |NewestFirst(s)| == |s|
    ensures NewerThan(s, NewestFirst(s)[i]) == SetOf(NewestFirst(s)[..i])
    ensures |NewerThan(s, NewestFirst(s)[i])| == i
  {
    Sorted(s);
    var rows := NewestFirst(s);
    forall y ensures y in NewerThan(s, rows[i]) <==> y in rows[..i] {
      if y in s {
        var k :| 0 <= k < |rows| && rows[k] == y;
        assert k < i ==> Newer(rows[k], rows[i]);
        assert i < k ==> Newer(rows[i], rows[k]);
        assert k < i ==> rows[..i][k] == y;
        assert i <= k && y in rows[..i] ==> Newer(y, y);
      }
    }
    DistinctSize(rows[..i], NewerThan(s, rows[i]));
  }

  /** `LIMIT` keeps exactly the rows that fewer than `limit` rows are newer than. */
  lemma LimitKeepsTheNewest(s: set<Stamp>, limit: nat, x: Stamp)
    ensures x in NewestFirst(s)[..if limit < |NewestFirst(s)| then limit else |NewestFirst(s)|] <==> AmongNewest(s, x, limit)
  {
    Sorted(s);
    var sorted := NewestFirst(s);
    if x in s {
      var i :| 0 <= i < |sorted| && sorted[i] == x;
      PositionIsRank(s, i);
      assert forall k :: 0 <= k < |sorted| && k != i ==> sorted[k] != x;
    }
  }

  /** At most `limit` rows are kept, and all of them when there are no more than that. */
  lemma KeptCount(s: set<Stamp>, limit: nat)
    ensures |set x | x in s && AmongNewest(s, x, limit)| == if limit < |s| then limit else |s|
  {
    Sorted(s);
    var sorted := NewestFirst(s);
    var n := if limit < |s| then limit else |s|;
    var kept := set x | x in s && AmongNewest(s, x, limit);
    forall x ensures x in kept <==> x in sorted[..n] { LimitKeepsTheNewest(s, limit, x); }
    DistinctSize(sorted[..n], kept);
  }

  lemma {:induction false} DistinctSize(xs: seq<Stamp>, s: set<Stamp>)
    requires forall x :: x in xs <==> x in s
    requires forall i, k :: 0 <= i < k < |xs| ==> xs[i] != xs[k]
    ensures |s| == |xs|
  {
    if xs == [] {
      assert s == {};
    } else {
      var last := xs[|xs| - 1];
      var front := xs[..|xs| - 1];
      forall x ensures x in front <==> x in s - {last} {
        if x in xs && x != last {
          var i :| 0 <= i < |xs| && xs[i] == x;
          assert front[i] == x;
        }
      }
      DistinctSize(front, s - {last});
    }
  }

  // ---- Retention family by family ------------------------------------------------------

  /** The kinds of snapshot that `snapshot_family` tells apart. */
  datatype Family = General | Operating | ConsultedNode | Unclassified

  function InFamily(s: set<Stamp>, family: map<Stamp, Family>, f: Family): set<Stamp> {
    set x | x in s && x in family && family[x] == f
  }

  function CountIn(counts: map<Family, nat>, f: Family): nat { if f in counts then counts[f] else 0 }

  /** The counter holds how many of the rows seen belong to each family. */
  ghost predicate Counted(rows: seq<Stamp>, family: map<Stamp, Family>, seen: map<Family, nat>) {
    forall f: Family :: CountIn(seen, f) == |InFamily(SetOf(rows), family, f)|
  }

  ghost predicate Judged(s: set<Stamp>, family: map<Stamp, Family>, limit: nat, doomed: set<Stamp>, x: Stamp) {
    x in family && (x in doomed <==> !AmongNewest(InFamily(s, family, family[x]), x, limit))
  }

  /** The pruning loop: walks the rows newest first, counts each family's rows, and
      dooms a row once its family has passed the limit.  A row is doomed exactly when
      at least `limit` rows of its own family are newer. */
  method DoomedByFamily(s: set<Stamp>, family: map<Stamp, Family>, limit: nat) returns (doomed: set<Stamp>)
    requires s <= family.Keys
    ensures doomed <= s
    ensures forall x :: x in s ==> Judged(s, family, limit, doomed, x)
  {
    Sorted(s);
    var rows := NewestFirst(s);
    var seen: map<Family, nat> := map[];
    doomed := {};
    var i := 0;
    while i < |rows|
      invariant 0 <= i <= |rows|
      invariant doomed <= SetOf(rows[..i])
      invariant Counted(rows[..i], family, seen)
      invariant forall x :: x in SetOf(rows[..i]) ==> Judged(s, family, limit, doomed, x)
    {
      hide InFamily, NewerThan, NewestFirst, SetOf, Counted;
      var x := rows[i];
      var f := family[x];
      OneMoreRow(rows, family, i, seen);
      seen := seen[f := CountIn(seen, f) + 1];
      BeforeIsNewer(s, family, i);
      ghost var before := doomed;
      if seen[f] > limit { doomed := doomed + {x}; }
      assert Judged(s, family, limit, doomed, x);
      forall y | y in SetOf(rows[..i]) ensures Judged(s, family, limit, doomed, y) {
        assert Judged(s, family, limit, before, y) && y != x;
      }
      i := i + 1;
    }
    assert rows[..i] == rows;
  }

  /** In the sorted rows, those of a family that come first are those that are newer. */
  lemma BeforeIsNewer(s: set<Stamp>, family: map<Stamp, Family>, i: nat)
    requires s <= family.Keys && i < |s|
    ensures |NewestFirst(s)| == |s|
    ensures
      var x := NewestFirst(s)[i];
      && x in s && x in InFamily(s, family, family[x]) && x !in NewestFirst(s)[..i]
      && NewerThan(InFamily(s, family, family[x]), x) == InFamily(SetOf(NewestFirst(s)[..i]), family, family[x])
  {
    Sorted(s);
    PositionIsRank(s, i);
    assert NewestFirst(s)[i] !in NewerThan(s, NewestFirst(s)[i]);
  }

  lemma OneMoreRow(rows: seq<Stamp>, family: map<Stamp, Family>, i: nat, seen: map<Family, nat>)
    requires i < |rows| && rows[i] in family && rows[i] !in rows[..i]
    requires Counted(rows[..i], family, seen)
    ensures SetOf(rows[..i + 1]) == SetOf(rows[..i]) + {rows[i]}
    ensures CountIn(seen, family[rows[i]]) == |InFamily(SetOf(rows[..i]), family, family[rows[i]])|
    ensures Counted(rows[..i + 1], family, seen[family[rows[i]] := CountIn(seen, family[rows[i]]) + 1])
  {
    assert rows[..i + 1] == rows[..i] + [rows[i]];
    assert SetOf(rows[..i + 1]) == SetOf(rows[..i]) + {rows[i]};
    var after := seen[family[rows[i]] := CountIn(seen, family[rows[i]]) + 1];
    forall f: Family ensures CountIn(after, f) == |InFamily(SetOf(rows[..i + 1]), family, f)| {
      var less := InFamily(SetOf(rows[..i]), family, f);
      assert CountIn(seen, f) == |less|;
      GrowsByOne(SetOf(rows[..i]), family, rows[i], f);
    }
  }

  lemma GrowsByOne(s: set<Stamp>, family: map<Stamp, Family>, x: Stamp, f: Family)
    requires x in family && x !in s
    ensures |InFamily(s + {x}, family, f)| == |InFamily(s, family, f)| + if family[x] == f then 1 else 0
  {
    var less, more := InFamily(s, family, f), InFamily(s + {x}, family, f);
    if family[x] == f {
      assert more == less + {x} && x !in less;
    } else {
      assert more == less;
    }
  }
}
