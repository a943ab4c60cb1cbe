// The v13 to v14 step: two child tables collapse onto the columns of their parent row,
// across any number of interruptions.

module ShippedStateCollapse {
  import opened Common

  datatype Column = Disposition | DecidedBy | SyncedAt | DownstreamSystem | DownstreamRef | PolicyRef | Reason | Note

  const COLUMNS: seq<Column> :=
    [Disposition, DecidedBy, SyncedAt, DownstreamSystem, DownstreamRef, PolicyRef, Reason, Note]

  /** A parent row: its older columns, and those of the new columns that exist. */
  datatype Row = Row(content: nat, sync: map<Column, Option<string>>)

  datatype Receipt = Receipt(system: string, reference: string, syncedBy: string, syncedAt: string, notes: Option<string>)

  datatype Policy = Policy(
    kind: string, policyRef: Option<string>, reason: string, decidedBy: string, decidedAt: string, notes: Option<string>)

  /** The database file; `None` is a table that does not exist. Both child tables are
      UNIQUE on the activity id. */
  datatype Db = Db(
    version: nat, columns: set<Column>, rows: map<nat, Row>,
    receipts: Option<map<nat, Receipt>>, policies: Option<map<nat, Policy>>)

  /** Every row has the columns of the table. */
  predicate Uniform(db: Db) { forall id :: id in db.rows ==> db.rows[id].sync.Keys == db.columns }

  /** `ADD COLUMN`, skipped when the column is there; new columns read NULL. */
  function WithColumn(db: Db, c: Column): Db {
    if c in db.columns then db
    else db.(columns := db.columns + {c},
             rows := map id | id in db.rows :: db.rows[id].(sync := db.rows[id].sync[c := None]))
  }

  function WithColumns(db: Db, n: nat): Db
    requires n <= |COLUMNS|
  {
    if n == 0 then db else WithColumn(WithColumns(db, n - 1), COLUMNS[n - 1])
  }

  function FromReceipt(row: Row, r: Receipt): Row {
    row.(sync := row.sync[Disposition := Some("synced")][DownstreamSystem := Some(r.system)][DownstreamRef := Some(r.reference)]
                         [DecidedBy := Some(r.syncedBy)][SyncedAt := Some(r.syncedAt)][Note := r.notes])
  }

  function FromPolicy(row: Row, p: Policy): Row {
    row.(sync := row.sync[Disposition := Some(p.kind)][PolicyRef := p.policyRef][Reason := Some(p.reason)]
                         [DecidedBy := Some(p.decidedBy)][SyncedAt := Some(p.decidedAt)][Note := p.notes])
  }

  function HasReceipt(db: Db, id: nat): bool { db.receipts.Some? && id in db.receipts.value }

  function HasPolicy(db: Db, id: nat): bool { db.policies.Some? && id in db.policies.value }

  function CopyReceipts(db: Db): Db {
    db.(rows := map id | id in db.rows ::
                  if HasReceipt(db, id) then FromReceipt(db.rows[id], db.receipts.value[id]) else db.rows[id])
  }

  /** The receipt guard can only look at a receipts table that exists. */
  function CopyPolicies(db: Db): Db {
    db.(rows := map id | id in db.rows ::
                  if HasPolicy(db, id) && !HasReceipt(db, id) then FromPolicy(db.rows[id], db.policies.value[id])
                  else db.rows[id])
  }

  /** What the step makes of a database when nothing interrupts it. */
  function Target(db: Db): Db {
    if db.version >= 14 then db
    else CopyPolicies(CopyReceipts(WithColumns(db, |COLUMNS|))).(receipts := None, policies := None, version := 14)
  }

  // ---- Meaning ---------------------------------------------------------------------------

  datatype Meaning = Open | ByReceipt(receipt: Receipt) | ByPolicy(policy: Policy)

  /** What the two-table database says about a row; a receipt wins. */
  function OldMeaning(db: Db, id: nat): Meaning {
    if HasReceipt(db, id) then ByReceipt(db.receipts.value[id])
    else if HasPolicy(db, id) then ByPolicy(db.policies.value[id])
    else Open
  }

  function Value(row: Row, c: Column): Option<string> { if c in row.sync then row.sync[c] else None }

  function Text(row: Row, c: Column): string { if Value(row, c).Some? then Value(row, c).value else "" }

  /** What the columns of a row say. */
  function NewMeaning(row: Row): Meaning {
    if Value(row, Disposition).None? then Open
    else if Text(row, Disposition) == "synced" then
      ByReceipt(Receipt(Text(row, DownstreamSystem), Text(row, DownstreamRef), Text(row, DecidedBy), Text(row, SyncedAt),
                        Value(row, Note)))
    else
      ByPolicy(Policy(Text(row, Disposition), Value(row, PolicyRef), Text(row, Reason), Text(row, DecidedBy),
                      Text(row, SyncedAt), Value(row, Note)))
  }

  /** A version 13 database, with any of the new columns already added but none filled. */
  predicate Unfilled(db: Db) {
    && Uniform(db)
    && (forall id, c :: id in db.rows && c in db.rows[id].sync ==> db.rows[id].sync[c].None?)
    && (db.policies.Some? ==> forall id :: id in db.policies.value ==> db.policies.value[id].kind != "synced")
  }

  /** The same row under a table of these columns: new ones read NULL. */
  ghost predicate SameReading(before: Row, after: Row, columns: set<Column>) {
    && after.content == before.content && after.sync.Keys == columns
    && forall c: Column :: Value(after, c) == Value(before, c)
  }

  ghost predicate OnlyColumnsAdded(db: Db, after: Db) {
    && after == db.(columns := after.columns, rows := after.rows)
    && db.columns <= after.columns && after.rows.Keys == db.rows.Keys
    && forall id :: id in db.rows ==> SameReading(db.rows[id], after.rows[id], after.columns)
  }

  lemma ColumnAdded(db: Db, mid: Db, c: Column)
    requires Uniform(mid) && OnlyColumnsAdded(db, mid)
    ensures Uniform(WithColumn(mid, c)) && OnlyColumnsAdded(db, WithColumn(mid, c))
    ensures WithColumn(mid, c).columns == mid.columns + {c}
  {
    var after := WithColumn(mid, c);
    forall id | id in db.rows ensures SameReading(db.rows[id], after.rows[id], after.columns) {
      assert SameReading(db.rows[id], mid.rows[id], mid.columns);
      forall k: Column ensures Value(after.rows[id], k) == Value(mid.rows[id], k) {}
    }
  }

  lemma {:induction false} ColumnsAdded(db: Db, n: nat)
    requires n <= |COLUMNS| && Uniform(db)
    ensures Uniform(WithColumns(db, n)) && OnlyColumnsAdded(db, WithColumns(db, n))
    ensures forall i :: 0 <= i < n ==> COLUMNS[i] in WithColumns(db, n).columns
  {
    hide Uniform, OnlyColumnsAdded, WithColumn;
    if n > 0 {
      ColumnsAdded(db, n - 1);
      ColumnAdded(db, WithColumns(db, n - 1), COLUMNS[n - 1]);
    } else {
      NothingAdded(db);
    }
  }

  lemma NothingAdded(db: Db)
    requires Uniform(db)
    ensures OnlyColumnsAdded(db, db)
  {
  }

  lemma ReceiptReads(row: Row, r: Receipt)
    ensures NewMeaning(FromReceipt(row, r)) == ByReceipt(r) && FromReceipt(row, r).content == row.content
    ensures Value(FromReceipt(row, r), PolicyRef) == Value(row, PolicyRef)
    ensures Value(FromReceipt(row, r), Reason) == Value(row, Reason)
  {
  }

  lemma PolicyReads(row: Row, p: Policy)
    requires p.kind != "synced"
    ensures NewMeaning(FromPolicy(row, p)) == ByPolicy(p) && FromPolicy(row, p).content == row.content
  {
  }

  /** The collapse keeps every row's meaning, its older columns and the set of rows, and
      leaves neither child table behind. */
  lemma CollapseKeepsTheMeaning(db: Db, id: nat)
    requires db.version == 13 && Unfilled(db) && id in db.rows
    ensures
      var after := Target(db);
      && after.rows.Keys == db.rows.Keys && after.rows[id].content == db.rows[id].content
      && NewMeaning(after.rows[id]) == OldMeaning(db, id)
      && (!OldMeaning(db, id).ByPolicy? ==> Value(after.rows[id], PolicyRef).None? && Value(after.rows[id], Reason).None?)
      && after.receipts.None? && after.policies.None? && after.version == 14
  {
    hide WithColumns, FromReceipt, FromPolicy, NewMeaning;
    ColumnsAdded(db, |COLUMNS|);
    var grown := WithColumns(db, |COLUMNS|);
    var row := grown.rows[id];
    assert SameReading(db.rows[id], row, grown.columns);
    assert Value(row, Disposition).None? && Value(row, PolicyRef).None? && Value(row, Reason).None?;
    RowAfter(db, id);
    if HasReceipt(db, id) {
      ReceiptReads(row, db.receipts.value[id]);
    } else if HasPolicy(db, id) {
      PolicyReads(row, db.policies.value[id]);
    } else {
      EmptyReads(row);
    }
  }

  lemma EmptyReads(row: Row)
    requires Value(row, Disposition).None?
    ensures NewMeaning(row) == Open
  {
  }

  lemma RowAfter(db: Db, id: nat)
    requires db.version == 13 && Uniform(db) && id in db.rows
    ensures
      var grown := WithColumns(db, |COLUMNS|).rows;
      && id in grown && Target(db).rows.Keys == db.rows.Keys && grown[id].content == db.rows[id].content
      && Target(db).rows[id] == if HasReceipt(db, id) then FromReceipt(grown[id], db.receipts.value[id])
                                else if HasPolicy(db, id) then FromPolicy(grown[id], db.policies.value[id])
                                else grown[id]
  {
    hide WithColumns, FromReceipt, FromPolicy;
    ColumnsAdded(db, |COLUMNS|);
    assert SameReading(db.rows[id], WithColumns(db, |COLUMNS|).rows[id], WithColumns(db, |COLUMNS|).columns);
  }

  // ---- Interruptions -----------------------------------------------------------------------

  /** What an interrupted run can leave: some of the columns, each committed by itself. */
  ghost predicate LeftBehind(before: Db, after: Db) { exists n: nat :: n <= |COLUMNS| && after == WithColumns(before, n) }

  lemma {:induction false} AddingAgainAddsNothing(db: Db, n: nat, k: nat)
    requires Uniform(db) && n <= |COLUMNS| && k <= |COLUMNS|
    ensures WithColumns(WithColumns(db, n), k) == WithColumns(db, if n < k then k else n)
  {
    if k > 0 {
      AddingAgainAddsNothing(db, n, k - 1);
      if k <= n { ColumnsAdded(db, n); }
    }
  }

  /** Finishing an interrupted run gives what the uninterrupted run would have given. */
  lemma RerunConverges(before: Db, after: Db)
    requires Uniform(before) && LeftBehind(before, after) && before.version < 14
    ensures Target(after) == Target(before) && Uniform(after) && after.version == before.version
  {
    var n: nat :| n <= |COLUMNS| && after == WithColumns(before, n);
    AddingAgainAddsNothing(before, n, |COLUMNS|);
    ColumnsAdded(before, n);
  }

  /** One attempt on the file: interrupted while adding columns, or carried through. */
  ghost predicate Attempted(before: Db, after: Db) {
    after == Target(before) || (before.version < 14 && LeftBehind(before, after))
  }

  /** However often the step is interrupted, and wherever, one attempt that gets through
      leaves the database of the run that nothing interrupted. */
  lemma {:induction false} AnyHistoryConverges(states: seq<Db>)
    requires |states| > 0 && Uniform(states[0])
    requires forall i :: 0 <= i < |states| - 1 ==> Attempted(states[i], states[i + 1])
    ensures Target(states[|states| - 1]) == Target(states[0])
    ensures states[|states| - 1].version >= 14 ==> states[|states| - 1] == Target(states[0])
    decreases |states|
  {
    if |states| > 1 && states[0].version < 14 {
      hide Target, LeftBehind;
      if states[1] == Target(states[0]) {
        FinishedStays(states[0]);
        StaysFinished(states[1..]);
      } else {
        RerunConverges(states[0], states[1]);
        AnyHistoryConverges(states[1..]);
      }
    } else if |states| > 1 {
      StaysFinished(states);
    }
  }

  lemma FinishedStays(db: Db)
    ensures Target(db).version >= 14 && Target(Target(db)) == Target(db)
  {
  }

  lemma {:induction false} StaysFinished(states: seq<Db>)
    requires |states| > 0 && states[0].version >= 14
    requires forall i :: 0 <= i < |states| - 1 ==> Attempted(states[i], states[i + 1])
    ensures states[|states| - 1] == states[0] && Target(states[0]) == states[0]
    decreases |states|
  {
    if |states| > 1 {
      assert Attempted(states[0], states[1]);
      StaysFinished(states[1..]);
    }
  }

  /** Why the copies, the drops and the version bump are one transaction: were the
      receipts table dropped by itself, the next attempt would lose its guard and a row
      with both a receipt and a policy would end up with the policy. */
  lemma DroppingReceiptsFirstWouldLoseThem(db: Db, id: nat)
    requires db.version == 13 && Unfilled(db) && id in db.rows && HasReceipt(db, id) && HasPolicy(db, id)
    ensures
      var split := CopyReceipts(WithColumns(db, |COLUMNS|)).(receipts := None);
      && id in Target(db).rows && id in Target(split).rows
      && NewMeaning(Target(db).rows[id]) == ByReceipt(db.receipts.value[id])
      && NewMeaning(Target(split).rows[id]) == ByPolicy(db.policies.value[id])
  {
    hide WithColumns, FromReceipt, FromPolicy, NewMeaning;
    CollapseKeepsTheMeaning(db, id);
    ColumnsAdded(db, |COLUMNS|);
    var grown := WithColumns(db, |COLUMNS|);
    var split := CopyReceipts(grown).(receipts := None);
    FilledKeepsColumns(grown);
    ColumnsAdded(split, |COLUMNS|);
    RowAfter(split, id);
    PolicyReads(WithColumns(split, |COLUMNS|).rows[id], db.policies.value[id]);
  }

  lemma FilledKeepsColumns(grown: Db)
    requires Uniform(grown) && forall i :: 0 <= i < |COLUMNS| ==> COLUMNS[i] in grown.columns
    ensures Uniform(CopyReceipts(grown))
  {
    assert COLUMNS[0] == Disposition && COLUMNS[1] == DecidedBy && COLUMNS[2] == SyncedAt;
    assert COLUMNS[3] == DownstreamSystem && COLUMNS[4] == DownstreamRef && COLUMNS[7] == Note;
    forall id | id in grown.rows ensures CopyReceipts(grown).rows[id].sync.Keys == grown.columns {}
  }
}
