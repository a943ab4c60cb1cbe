// The migration step as the statements it issues: DDL outside a transaction commits by
// itself, the first UPDATE opens a transaction, and only the final commit ends it.

module SchemaMigration {
  import opened Common
  import opened ShippedStateCollapse

  class Connection {
    /** What a new process would find. */
    var disk: Db
    /** What this connection sees: the disk, and its open transaction if there is one. */
    var work: Db
    var inTransaction: bool
    var script: Script

    constructor (db: Db, faults: Script)
      ensures disk == work == db && !inTransaction && script == faults
    {
      disk, work, inTransaction, script := db, db, false, faults;
    }

    ghost predicate Idle()
      reads this
    {
      work == disk && !inTransaction
    }

    /** One statement and the fault it meets; `begins` marks an UPDATE. */
    method Execute(next: Db, begins: bool) returns (step: Step)
      modifies this
      ensures step == Done ==> work == next && inTransaction == (old(inTransaction) || begins)
      ensures step == Done ==> disk == if old(inTransaction) || begins then old(disk) else next
      ensures step != Done ==> Idle()
      ensures step != Done ==> disk == old(disk) || (!old(inTransaction) && !begins && disk == next)
      ensures old(NoFaults(script)) ==> step == Done && NoFaults(script)
    {
      var fault := NextFault(script);
      script := Rest(script);
      if fault == Completes || fault == RaisesAfter {
        work, inTransaction := next, inTransaction || begins;
        if !inTransaction { disk := work; }
      }
      if fault == Completes { return Done; }
      work, inTransaction := disk, false;
      step := if fault == Dies then Died else Raised;
    }

    method Commit() returns (step: Step)
      modifies this
      ensures Idle()
      ensures disk == old(work) || (step != Done && disk == old(disk))
      ensures step == Done ==> disk == old(work)
      ensures old(NoFaults(script)) ==> step == Done && NoFaults(script)
    {
      var fault := NextFault(script);
      script := Rest(script);
      if fault == Completes || fault == RaisesAfter { disk := work; }
      work, inTransaction := disk, false;
      step := match fault case Completes => Done case Dies => Died case _ => Raised;
    }

    /** The guarded `ADD COLUMN`s, each committed by itself. */
    method AddColumns() returns (step: Step)
      requires Idle() && Uniform(disk)
      modifies this
      ensures LeftBehind(old(disk), disk) && Idle()
      ensures step == Done ==> disk == WithColumns(old(disk), |COLUMNS|)
      ensures old(NoFaults(script)) ==> step == Done && NoFaults(script)
    {
      var before := disk;
      var i := 0;
      assert disk == WithColumns(before, 0);
      while i < |COLUMNS|
        invariant 0 <= i <= |COLUMNS| && Idle()
        invariant disk == WithColumns(before, i)
        invariant old(NoFaults(script)) ==> NoFaults(script)
      {
        hide NoFaults, WithColumn;
        assert WithColumns(before, i + 1) == WithColumn(work, COLUMNS[i]);
        if COLUMNS[i] !in before.columns {
          step := Execute(WithColumn(work, COLUMNS[i]), false);
          if step != Done { return; }
        } else {
          AlreadyThere(before, i);
        }
        i := i + 1;
      }
      step := Done;
    }

    /** `ensure_schema` at this step of its ladder. */
    method EnsureVersion14() returns (step: Step)
      requires Idle() && Uniform(disk)
      modifies this
      ensures Attempted(old(disk), disk) && Idle()
      ensures step == Done ==> disk == Target(old(disk))
      ensures old(NoFaults(script)) ==> step == Done
    {
      if disk.version >= 14 { return Done; }
      ghost var before := disk;
      var hasReceipts, hasPolicies := work.receipts.Some?, work.policies.Some?;
      step := AddColumns();
      if step != Done { return; }
      ghost var grown := disk;
      ColumnsAdded(before, |COLUMNS|);
      hide WithColumns, CopyReceipts, CopyPolicies, NoFaults, Uniform;
      assert LeftBehind(before, grown) && work == grown;
      if hasReceipts {
        step := Execute(CopyReceipts(work), true);
        if step != Done { return; }
      } else {
        NothingToCopy(work);
      }
      assert work == CopyReceipts(grown);
      if hasPolicies {
        step := Execute(CopyPolicies(work), true);
        if step != Done { return; }
      } else {
        NothingToCopy(work);
      }
      assert work == CopyPolicies(CopyReceipts(grown));
      assert inTransaction || (work == grown && grown.receipts.None? && grown.policies.None?);
      FinishedIsTarget(before);
      step := Execute(work.(receipts := None), false);
      if step != Done { return; }
      step := Execute(work.(policies := None), false);
      if step != Done { return; }
      step := Execute(work.(version := 14), false);
      if step != Done { return; }
      step := Commit();
    }
  }

  lemma FinishedIsTarget(db: Db)
    requires db.version < 14
    ensures Target(db)
      == CopyPolicies(CopyReceipts(WithColumns(db, |COLUMNS|))).(receipts := None, policies := None, version := 14)
  {
  }

  lemma AlreadyThere(before: Db, i: nat)
    requires i < |COLUMNS| && Uniform(before) && COLUMNS[i] in before.columns
    ensures WithColumns(before, i + 1) == WithColumns(before, i)
  {
    ColumnsAdded(before, i);
  }

  lemma NothingToCopy(db: Db)
    ensures db.receipts.None? ==> CopyReceipts(db) == db
    ensures db.policies.None? ==> CopyPolicies(db) == db
  {
  }
}
