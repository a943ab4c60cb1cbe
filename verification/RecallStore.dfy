// The recall family and its disposition log as the redaction changes them, one durable
// step at a time.

module RecallStore {
  import opened Common
  import opened DispositionInventory
  import opened RecallRedaction

  class RecallFamily {
    var files: seq<File>
    var log: seq<Record>
    var script: Script

    constructor (e: Evidence, faults: Script)
      ensures Contents() == e && script == faults
    {
      files, log, script := e.files, e.log, faults;
    }

    function Contents(): Evidence
      reads this
    {
      Evidence(files, log)
    }

    method AppendReceipt(r: Record) returns (step: Step)
      modifies this`log, this`script
      ensures Contents() == Appended(old(Contents()), r, NextFault(old(script)))
      ensures step == StepFor(NextFault(old(script))) && script == Rest(old(script))
    {
      var f := NextFault(script);
      script := Rest(script);
      if f == Completes || f == RaisesAfter { log := log + [r]; }
      step := StepFor(f);
    }

    /** Writes the replacements and renames them over the sources, in order. */
    method ReplaceFiles(redacted: seq<File>) returns (published: nat, step: Step)
      requires redacted == RedactedFiles(files)
      modifies this`files, this`script
      ensures (published, step, script) == Replace(old(files), 0, old(script))
      ensures published <= |old(files)| && files == Partly(old(files), published)
    {
      hide RedactedFiles;
      ghost var before := files;
      published := 0;
      PartlyEnds(before);
      while published < |redacted|
        invariant published <= |redacted| && files == Partly(before, published)
        invariant Replace(before, published, script) == Replace(before, 0, old(script))
        decreases |redacted| - published
      {
        hide Partly, RedactedFiles;
        var f := NextFault(script);
        script := Rest(script);
        if f != Completes { return published, StepFor(f); }
        PartlyNext(before, published);
        files := files[published := redacted[published]];
        published := published + 1;
      }
      step := Done;
    }

    /** The `except` block. */
    method HandleFailure(published: nat, tx: nat, step: Step) returns (outcome: Outcome)
      requires step != Done
      modifies this`log, this`script
      ensures Result(Contents(), outcome, script) == Fail(old(Contents()), published, tx, step, old(script))
    {
      if step == Raised && published == 0 {
        var swallowed := AppendReceipt(Valid(tx, Aborted));
        return Stopped(if swallowed == Died then Died else Raised);
      }
      outcome := Stopped(step);
    }

    /** `redact_legacy_recall_queries`, under the family's lock. */
    method RedactQueries(archived: seq<File>, expected: nat, apply: bool, tx: nat) returns (outcome: Outcome)
      modifies this
      ensures Result(Contents(), outcome, script) == Redact(old(Contents()), archived, expected, apply, tx, old(script))
    {
      hide Partly, Replace, RedactedFiles;
      if archived != files { return Changed; }
      var total := CountRaw();
      if total != expected { return CountChanged; }
      if !apply { return WouldRedact; }
      if total == 0 { return AlreadyRedacted; }
      var redacted := RedactedFiles(files);
      var step := AppendReceipt(Valid(tx, Prepared));
      if step != Done { return Stopped(step); }
      var published: nat;
      published, step := ReplaceFiles(redacted);
      if step != Done {
        outcome := HandleFailure(published, tx, step);
        return;
      }
      var sync := NextFault(script);
      script := Rest(script);
      if sync != Completes {
        outcome := HandleFailure(published, tx, StepFor(sync));
        return;
      }
      step := AppendReceipt(Valid(tx, Completed));
      if step != Done {
        outcome := HandleFailure(published, tx, step);
        return;
      }
      outcome := RedactionCompleted;
    }

    method CountRaw() returns (total: nat)
      ensures total == TotalRaw(files)
    {
      total := 0;
      var i := 0;
      while i < |files|
        invariant 0 <= i <= |files| && total == TotalRaw(files[..i])
      {
        assert files[..i + 1][..i] == files[..i];
        total := total + RawQueries(files[i]);
        i := i + 1;
      }
      assert files[..i] == files;
    }
  }

  lemma PartlyNext(files: seq<File>, n: nat)
    requires n < |files|
    ensures |Partly(files, n)| == |files| && Partly(files, n)[n := RedactedFiles(files)[n]] == Partly(files, n + 1)
  {
  }
}
