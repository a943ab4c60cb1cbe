// The inventory of evidence-disposition transactions: newest-first bookkeeping against
// the plain reading of the log.

module DispositionInventory {
  import opened Common

  datatype Status = Prepared | Completed | Aborted

  /** A log record; one without a transaction id and a known status is invalid. */
  datatype Record = Valid(tx: nat, status: Status) | Invalid

  /** The last status of each transaction, reading the log forwards. */
  function Latest(log: seq<Record>): map<nat, Status> {
    if log == [] then map[]
    else
      var before := Latest(log[..|log| - 1]);
      match log[|log| - 1]
      case Valid(tx, status) => before[tx := status]
      case Invalid => before
  }

  function InvalidCount(log: seq<Record>): nat {
    if log == [] then 0 else InvalidCount(log[..|log| - 1]) + if log[|log| - 1].Invalid? then 1 else 0
  }

  predicate Settles(log: seq<Record>, i: nat, k: nat)
    requires i < |log| && k < |log|
  {
    i < k && log[i].Valid? && log[k].Valid? && log[k].tx == log[i].tx && !log[k].status.Prepared?
  }

  /** Every transaction that was prepared was later completed or aborted. */
  predicate Settled(log: seq<Record>) {
    forall i :: 0 <= i < |log| && log[i].Valid? && log[i].status.Prepared? ==> exists k :: 0 <= k < |log| && Settles(log, i, k)
  }

  lemma {:induction false} LatestIsTheLastRecord(log: seq<Record>, tx: nat)
    ensures tx in Latest(log) <==> exists i :: 0 <= i < |log| && log[i].Valid? && log[i].tx == tx
    ensures tx in Latest(log) ==> exists i :: 0 <= i < |log| && IsLast(log, tx, i) && log[i].status == Latest(log)[tx]
  {
    if log != [] {
      var front, n := log[..|log| - 1], |log| - 1;
      LatestIsTheLastRecord(front, tx);
      if log[n].Valid? && log[n].tx == tx {
        assert IsLast(log, tx, n);
      } else if tx in Latest(front) {
        var i :| 0 <= i < |front| && IsLast(front, tx, i) && front[i].status == Latest(front)[tx];
        assert IsLast(log, tx, i) && log[i] == front[i];
      } else {
        forall i | 0 <= i < |log| && log[i].Valid? ensures log[i].tx != tx { assert i < n ==> front[i] == log[i]; }
      }
    }
  }

  predicate IsLast(log: seq<Record>, tx: nat, i: nat)
    requires i < |log|
  {
    log[i].Valid? && log[i].tx == tx && forall k :: i < k < |log| && log[k].Valid? ==> log[k].tx != tx
  }

  predicate NoneOpen(latest: map<nat, Status>) { forall tx :: tx in latest ==> !latest[tx].Prepared? }

  /** No transaction's last word is `prepared` exactly when each prepared one was settled. */
  lemma NoneOpenIffSettled(log: seq<Record>)
    ensures NoneOpen(Latest(log)) <==> Settled(log)
  {
    if NoneOpen(Latest(log)) {
      forall i | 0 <= i < |log| && log[i].Valid? && log[i].status.Prepared?
        ensures exists k :: 0 <= k < |log| && Settles(log, i, k)
      {
        var tx := log[i].tx;
        LatestIsTheLastRecord(log, tx);
        assert tx in Latest(log);
        var k :| 0 <= k < |log| && IsLast(log, tx, k) && log[k].status == Latest(log)[tx];
        assert Settles(log, i, k);
      }
    }
    if Settled(log) {
      forall tx | tx in Latest(log) ensures !Latest(log)[tx].Prepared? {
        LatestIsTheLastRecord(log, tx);
        var i :| 0 <= i < |log| && IsLast(log, tx, i) && log[i].status == Latest(log)[tx];
        assert forall k :: 0 <= k < |log| ==> !Settles(log, i, k);
      }
    }
  }

  datatype Inventory = Inventory(transactions: nat, open: nat, completed: nat, aborted: nat, invalid: nat, truncated: bool)

  predicate Clear(v: Inventory) { v.open == 0 && v.invalid == 0 && !v.truncated }

  function WithStatus(latest: map<nat, Status>, status: Status): set<nat> { set tx | tx in latest && latest[tx] == status }

  /** Reading on from `i` back to the start, a status counts only for transactions that
      newer records have not named. */
  lemma FrontUnderLatest(log: seq<Record>, i: nat, seen: map<nat, Status>)
    requires i < |log|
    ensures Latest(log[..i + 1]) + seen
      == Latest(log[..i]) + (match log[i]
                             case Valid(tx, status) => if tx in seen then seen else seen[tx := status]
                             case Invalid => seen)
  {
    assert log[..i + 1][..i] == log[..i];
  }

  /** `evidence_disposition_inventory` over the records that the scan yields, which it
      visits newest first with `setdefault`; `log` is their order in the files. */
  method TakeInventory(log: seq<Record>, truncated: bool) returns (v: Inventory)
    ensures v.transactions == |Latest(log)| && v.invalid == InvalidCount(log) && v.truncated == truncated
    ensures v.open == |WithStatus(Latest(log), Prepared)| && v.completed == |WithStatus(Latest(log), Completed)|
    ensures v.aborted == |WithStatus(Latest(log), Aborted)|
    ensures Clear(v) <==> !truncated && Settled(log) && forall i :: 0 <= i < |log| ==> log[i].Valid?
  {
    var seen: map<nat, Status> := map[];
    var invalid, i := 0, |log|;
    assert log[..i] == log;
    while i > 0
      invariant 0 <= i <= |log|
      invariant Latest(log) == Latest(log[..i]) + seen
      invariant invalid + InvalidCount(log[..i]) == InvalidCount(log)
    {
      i := i - 1;
      FrontUnderLatest(log, i, seen);
      assert log[..i + 1][..i] == log[..i];
      match log[i] {
        case Invalid => invalid := invalid + 1;
        case Valid(tx, status) => if tx !in seen { seen := seen[tx := status]; }
      }
    }
    assert seen == Latest(log);
    v := Inventory(|seen|, |WithStatus(seen, Prepared)|, |WithStatus(seen, Completed)|,
                   |WithStatus(seen, Aborted)|, invalid, truncated);
    NoneOpenIffSettled(log);
    NoInvalidIffZero(log);
    EmptyIffZero(seen);
  }

  lemma EmptyIffZero(latest: map<nat, Status>)
    ensures |WithStatus(latest, Prepared)| == 0 <==> NoneOpen(latest)
  {
    if |WithStatus(latest, Prepared)| == 0 {
      forall tx | tx in latest ensures !latest[tx].Prepared? { assert tx !in WithStatus(latest, Prepared); }
    } else {
      var tx :| tx in WithStatus(latest, Prepared);
    }
  }

  lemma {:induction false} NoInvalidIffZero(log: seq<Record>)
    ensures InvalidCount(log) == 0 <==> forall i :: 0 <= i < |log| ==> log[i].Valid?
  {
    if log != [] {
      NoInvalidIffZero(log[..|log| - 1]);
      assert log == log[..|log| - 1] + [log[|log| - 1]];
    }
  }
}
