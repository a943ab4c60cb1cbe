// Write-conflict receipts: one aggregated row per identity up to a quota, then one
// overflow row per surface.

module WriteConflicts {
  import opened Common

  /** A conflict: its surface, and everything else that its identity hash covers. */
  datatype Conflict = Conflict(surface: nat, rest: nat)

  /** The injective identity hash of a conflict, or of a surface's overflow bucket. */
  datatype Identity = Exact(conflict: Conflict) | Overflow(surface: nat)

  datatype Row = Row(id: nat, occurrences: nat)

  /** Rows that have an identity hash; the partial unique index makes it a map. */
  type Table = map<Identity, Row>

  /** The row on which a call lands. */
  function Lands(t: Table, c: Conflict, quota: nat): Identity {
    if Exact(c) in t || |t| < quota then Exact(c) else Overflow(c.surface)
  }

  class ConflictStore {
    var table: map<Identity, Row>
    var nextId: nat
    const quota: nat

    constructor (quota: nat)
      ensures table == map[] && this.quota == quota
    {
      this.quota := quota;
      table, nextId := map[], 1;
    }

    /** `INSERT ... WHERE EXISTS(identity) OR COUNT(*) < quota ON CONFLICT DO UPDATE
        occurrence_count + 1 RETURNING id`; no id means that the quota refused it. */
    method Upsert(who: Identity, enforceQuota: bool) returns (id: Option<nat>)
      modifies this
      ensures id.None? <==> enforceQuota && who !in old(table) && |old(table)| >= quota
      ensures id.None? ==> table == old(table) && nextId == old(nextId)
      ensures id.Some? && who in old(table) ==>
                && id == Some(old(table)[who].id) && nextId == old(nextId)
                && table == old(table)[who := Row(id.value, old(table)[who].occurrences + 1)]
      ensures id.Some? && who !in old(table) ==>
                && id == Some(old(nextId)) && nextId == old(nextId) + 1
                && table == old(table)[who := Row(id.value, 1)]
    {
      if who in table {
        var row := table[who];
        table := table[who := row.(occurrences := row.occurrences + 1)];
        return Some(row.id);
      }
      if enforceQuota && |table| >= quota { return None; }
      table := table[who := Row(nextId, 1)];
      nextId := nextId + 1;
      return Some(nextId - 1);
    }

    /** `record_write_conflict`: the exact identity first, the surface's bucket otherwise. */
    method RecordWriteConflict(c: Conflict) returns (id: nat)
      modifies this
      ensures Lands(old(table), c, quota) in table && id == table[Lands(old(table), c, quota)].id
      ensures Counts(table) == Recorded(Counts(old(table)), Lands(old(table), c, quota))
      ensures forall r :: r in old(table) ==> r in table && table[r].id == old(table)[r].id
    {
      var exact := Upsert(Exact(c), true);
      if exact.Some? { return exact.value; }
      var overflow := Upsert(Overflow(c.surface), false);
      return overflow.value;
    }
  }

  // ---- Traces -------------------------------------------------------------------------

  function Counts(t: Table): (counts: map<Identity, nat>)
    ensures counts.Keys == t.Keys
  {
    map r | r in t :: t[r].occurrences
  }

  function Recorded(counts: map<Identity, nat>, r: Identity): map<Identity, nat> {
    counts[r := (if r in counts then counts[r] else 0) + 1]
  }

  function Target(counts: map<Identity, nat>, c: Conflict, quota: nat): Identity {
    if Exact(c) in counts || |counts| < quota then Exact(c) else Overflow(c.surface)
  }

  lemma TargetIsLands(t: Table, c: Conflict, quota: nat)
    ensures Target(Counts(t), c, quota) == Lands(t, c, quota)
  {
    assert |Counts(t).Keys| == |t.Keys|;
  }

  /** The occurrence counts after a trace of calls on an empty table. */
  function After(calls: seq<Conflict>, quota: nat): map<Identity, nat> {
    if calls == [] then map[]
    else
      var before := After(calls[..|calls| - 1], quota);
      Recorded(before, Target(before, calls[|calls| - 1], quota))
  }

  /** The row on which call number `i` of the trace lands. */
  function Landing(calls: seq<Conflict>, quota: nat, i: nat): Identity
    requires i < |calls|
  {
    Target(After(calls[..i], quota), calls[i], quota)
  }

  lemma AfterOneMore(calls: seq<Conflict>, quota: nat, n: nat)
    requires n < |calls|
    ensures After(calls[..n + 1], quota) == Recorded(After(calls[..n], quota), Landing(calls, quota, n))
  {
    assert calls[..n + 1][..n] == calls[..n];
  }

  /** Rows are never removed, and a full table admits no new exact identity. */
  lemma {:induction false} RowsOnlyGrow(calls: seq<Conflict>, quota: nat, i: nat, j: nat)
    requires i <= j <= |calls|
    ensures After(calls[..i], quota).Keys <= After(calls[..j], quota).Keys
    ensures |After(calls[..i], quota)| <= |After(calls[..j], quota)|
    ensures |After(calls[..i], quota)| >= quota ==>
              forall c :: Exact(c) in After(calls[..j], quota) ==> Exact(c) in After(calls[..i], quota)
    decreases j - i
  {
    hide After, Recorded, Target;
    if i < j {
      RowsOnlyGrow(calls, quota, i, j - 1);
      AfterOneMore(calls, quota, j - 1);
      RecordedGrows(After(calls[..j - 1], quota), calls[j - 1], quota);
    }
  }

  /** One call adds at most its target row, and to a full table no exact one. */
  lemma RecordedGrows(counts: map<Identity, nat>, c: Conflict, quota: nat)
    ensures
      var after := Recorded(counts, Target(counts, c, quota));
      && counts.Keys <= after.Keys && |counts| <= |after|
      && (|counts| >= quota ==> forall other :: Exact(other) in after ==> Exact(other) in counts)
  {
    var r := Target(counts, c, quota);
    var after := Recorded(counts, r);
    assert after.Keys == counts.Keys + {r};
    assert |after.Keys| == |after| && |counts.Keys| == |counts|;
    if r !in counts { assert |counts.Keys + {r}| == |counts.Keys| + 1; }
  }

  /** Every call on an identity lands on the same row, however many come between. */
  lemma SameIdentitySameRow(calls: seq<Conflict>, quota: nat, i: nat, j: nat)
    requires i <= j < |calls| && calls[i] == calls[j]
    ensures Landing(calls, quota, i) == Landing(calls, quota, j)
  {
    if i < j {
      AfterOneMore(calls, quota, i);
      RowsOnlyGrow(calls, quota, i, j);
      RowsOnlyGrow(calls, quota, i + 1, j);
    }
  }

  function CallsOn(calls: seq<Conflict>, quota: nat, r: Identity, n: nat): nat
    requires n <= |calls|
  {
    if n == 0 then 0
    else CallsOn(calls, quota, r, n - 1) + (if Landing(calls, quota, n - 1) == r then 1 else 0)
  }

  /** Each row's occurrence count is exactly the number of calls that landed on it. */
  lemma {:induction false} CountsAreExact(calls: seq<Conflict>, quota: nat, n: nat, r: Identity)
    requires n <= |calls|
    ensures r in After(calls[..n], quota) <==> CallsOn(calls, quota, r, n) > 0
    ensures r in After(calls[..n], quota) ==> After(calls[..n], quota)[r] == CallsOn(calls, quota, r, n)
  {
    if n > 0 {
      CountsAreExact(calls, quota, n - 1, r);
      AfterOneMore(calls, quota, n - 1);
    }
  }

  // ---- Who gets a row -------------------------------------------------------------------

  function Seen(calls: seq<Conflict>): set<Conflict> { set c | c in calls }

  function Surfaces(calls: seq<Conflict>): set<nat> { set c | c in calls :: c.surface }

  function ExactRows(conflicts: set<Conflict>): set<Identity> { set c | c in conflicts :: Exact(c) }

  function OverflowRows(surfaces: set<nat>): set<Identity> { set s | s in surfaces :: Overflow(s) }

  lemma {:induction false} ExactRowsSize(conflicts: set<Conflict>)
    ensures |ExactRows(conflicts)| == |conflicts|
    decreases |conflicts|
  {
    if conflicts != {} {
      var c :| c in conflicts;
      ExactRowsSize(conflicts - {c});
      assert ExactRows(conflicts) == ExactRows(conflicts - {c}) + {Exact(c)};
    }
  }

  lemma {:induction false} OverflowRowsSize(surfaces: set<nat>)
    ensures |OverflowRows(surfaces)| == |surfaces|
    decreases |surfaces|
  {
    if surfaces != {} {
      var s :| s in surfaces;
      OverflowRowsSize(surfaces - {s});
      assert OverflowRows(surfaces) == OverflowRows(surfaces - {s}) + {Overflow(s)};
    }
  }

  lemma SeenOneMore(calls: seq<Conflict>, n: nat)
    requires n < |calls|
    ensures Seen(calls[..n + 1]) == Seen(calls[..n]) + {calls[n]}
    ensures Surfaces(calls[..n + 1]) == Surfaces(calls[..n]) + {calls[n].surface}
  {
    assert calls[..n + 1] == calls[..n] + [calls[n]];
  }

  function ExactPart(keys: set<Identity>): set<Identity> { set r | r in keys && r.Exact? }

  /** Until more distinct conflicts than the quota were seen, each has its own row and
      nothing else has; from then on the table is full. */
  ghost predicate Shape(keys: set<Identity>, seen: set<Conflict>, surfaces: set<nat>, quota: nat) {
    && (|seen| <= quota ==> keys == ExactRows(seen))
    && (|seen| > quota ==> |keys| >= quota)
    && (forall c :: Exact(c) in keys ==> c in seen)
    && (forall s :: Overflow(s) in keys ==> s in surfaces)
    && |ExactPart(keys)| <= quota
  }

  lemma ShapeStep(keys: set<Identity>, seen: set<Conflict>, surfaces: set<nat>, quota: nat, c: Conflict)
    requires Shape(keys, seen, surfaces, quota)
    ensures Shape(keys + {if Exact(c) in keys || |keys| < quota then Exact(c) else Overflow(c.surface)},
                  seen + {c}, surfaces + {c.surface}, quota)
  {
    ExactRowsSize(seen);
    SubsetSize(ExactPart(keys), keys);
    if Exact(c) in keys {
      assert keys + {Exact(c)} == keys && seen + {c} == seen;
    } else if |keys| < quota {
      var after := keys + {Exact(c)};
      assert keys == ExactRows(seen) && c !in seen;
      assert after == ExactRows(seen + {c});
      assert ExactPart(after) == ExactPart(keys) + {Exact(c)};
    } else {
      assert ExactPart(keys + {Overflow(c.surface)}) == ExactPart(keys);
      SubsetSize(keys, keys + {Overflow(c.surface)});
      if c in seen {
        assert seen + {c} == seen;
        assert |seen| <= quota ==> Exact(c) in ExactRows(seen);
      }
    }
  }

  /** The shape of the table after the first `n` calls. */
  ghost predicate ShapeAfter(calls: seq<Conflict>, quota: nat, n: nat)
    requires n <= |calls|
  {
    Shape(After(calls[..n], quota).Keys, Seen(calls[..n]), Surfaces(calls[..n]), quota)
  }

  lemma EmptyShape(calls: seq<Conflict>, quota: nat)
    ensures ShapeAfter(calls, quota, 0)
  {
    assert calls[..0] == [] && Seen([]) == {} && ExactRows({}) == {} && ExactPart({}) == {};
  }

  lemma RecordedKeys(counts: map<Identity, nat>, c: Conflict, quota: nat)
    ensures Recorded(counts, Target(counts, c, quota)).Keys
         == counts.Keys + {if Exact(c) in counts.Keys || |counts.Keys| < quota then Exact(c) else Overflow(c.surface)}
  {
    assert |counts.Keys| == |counts|;
  }

  lemma NextShape(calls: seq<Conflict>, quota: nat, n: nat)
    requires n < |calls| && ShapeAfter(calls, quota, n)
    ensures ShapeAfter(calls, quota, n + 1)
  {
    hide Shape, After, Seen, Surfaces, Target, Recorded;
    var before := After(calls[..n], quota);
    AfterOneMore(calls, quota, n);
    SeenOneMore(calls, n);
    RecordedKeys(before, calls[n], quota);
    ShapeStep(before.Keys, Seen(calls[..n]), Surfaces(calls[..n]), quota, calls[n]);
  }

  lemma {:induction false} TableShape(calls: seq<Conflict>, quota: nat, n: nat)
    requires n <= |calls|
    ensures ShapeAfter(calls, quota, n)
  {
    hide ShapeAfter;
    if n == 0 {
      EmptyShape(calls, quota);
    } else {
      TableShape(calls, quota, n - 1);
      NextShape(calls, quota, n - 1);
    }
  }

  lemma {:induction false} SubsetSize<T>(a: set<T>, b: set<T>)
    requires a <= b
    ensures |a| <= |b|
    decreases |a|
  {
    if a != {} {
      var x :| x in a;
      SubsetSize(a - {x}, b - {x});
    }
  }

  /** The first `quota` distinct identities, and only they, get a row of their own:
      exactly those before whose first call fewer than `quota` others had been seen. */
  lemma OwnRowIffAmongTheFirst(calls: seq<Conflict>, quota: nat, i: nat)
    requires i < |calls| && calls[i] !in calls[..i]
    ensures Landing(calls, quota, i) == Exact(calls[i]) <==> |Seen(calls[..i])| < quota
  {
    TableShape(calls, quota, i);
    ExactRowsSize(Seen(calls[..i]));
    var keys := After(calls[..i], quota).Keys;
    assert Exact(calls[i]) !in keys;
  }

  /** Identity rows never exceed the quota plus the number of surfaces. */
  lemma RowsAreBounded(calls: seq<Conflict>, quota: nat)
    ensures |After(calls, quota)| <= quota + |Surfaces(calls)|
  {
    assert calls[..|calls|] == calls;
    TableShape(calls, quota, |calls|);
    var keys := After(calls, quota).Keys;
    var over := keys - ExactPart(keys);
    OverflowRowsSize(Surfaces(calls));
    SubsetSize(over, OverflowRows(Surfaces(calls)));
    assert keys == ExactPart(keys) + over;
  }
}
