// Redaction of legacy recall queries: what one record loses, and a multi-file rewrite
// bracketed by prepared and completed receipts.

module RecallRedaction {
  import opened Common
  import opened DispositionInventory

  /** A JSON value; texts that no code here inspects are numbered. */
  datatype Json = Str(text: string) | Bool(value: bool) | Null | Other(id: nat)

  /** A decoded record; printing and parsing are inverse. */
  type Fields = map<string, Json>

  predicate Space(c: char) { c in " \t\n\r\U{0B}\U{0C}\U{1C}\U{1D}\U{1E}\U{1F}\U{85}\U{A0}" }

  /** `not text.strip()`. */
  predicate Blank(text: string) { forall i :: 0 <= i < |text| ==> Space(text[i]) }

  /** A text is blank exactly when all of its parts are, and one character when it is space. */
  lemma BlankParts(a: string, b: string, c: char)
    ensures Blank("") && (Blank([c]) <==> Space(c)) && (Blank(a + b) <==> Blank(a) && Blank(b))
  {
    assert forall i :: 0 <= i < |a| ==> (a + b)[i] == a[i];
    assert forall i :: 0 <= i < |b| ==> (a + b)[|a| + i] == b[i];
    assert [c][0] == c;
  }

  predicate HasRawQuery(r: Fields) { "query" in r && r["query"].Str? }

  /** How the statistics classify a record: by its flag, or by the legacy query text. */
  predicate CountsAsEmpty(r: Fields) {
    var flag := if "query_empty" in r then r["query_empty"] else Null;
    if flag == Bool(true) then true
    else if flag == Null then !HasRawQuery(r) || Blank(r["query"].text)
    else false
  }

  function Redacted(r: Fields): Fields {
    if !HasRawQuery(r) then r
    else r["query_empty" := Bool(Blank(r["query"].text))]["query_text_redacted" := Bool(true)] - {"query"}
  }

  function RedactedAll(rs: seq<Fields>): (out: seq<Fields>)
    ensures |out| == |rs| && forall i :: 0 <= i < |rs| ==> out[i] == Redacted(rs[i])
  {
    seq(|rs|, i requires 0 <= i < |rs| => Redacted(rs[i]))
  }

  function RawQueries(rs: seq<Fields>): nat {
    if rs == [] then 0 else RawQueries(rs[..|rs| - 1]) + if HasRawQuery(rs[|rs| - 1]) then 1 else 0
  }

  function EmptyTotal(rs: seq<Fields>): nat {
    if rs == [] then 0 else EmptyTotal(rs[..|rs| - 1]) + if CountsAsEmpty(rs[|rs| - 1]) then 1 else 0
  }

  function EmptyOnes(rs: seq<Fields>): set<nat> { set i: nat | i < |rs| && CountsAsEmpty(rs[i]) }

  lemma {:induction false} EmptyTotalCounts(rs: seq<Fields>)
    ensures EmptyTotal(rs) == |EmptyOnes(rs)|
  {
    hide CountsAsEmpty;
    if rs != [] {
      var n: nat := |rs| - 1;
      EmptyTotalCounts(rs[..n]);
      assert EmptyOnes(rs) == EmptyOnes(rs[..n]) + if CountsAsEmpty(rs[n]) then {n} else {};
    }
  }

  /** A raw query with a flag that is missing, null or right. */
  predicate FlagAgrees(r: Fields) {
    HasRawQuery(r) && "query_empty" in r && r["query_empty"] != Null ==>
      (r["query_empty"] == Bool(true) <==> Blank(r["query"].text))
  }

  /** No text query survives, every other field does, and the record keeps its place in
      the empty-query statistics exactly when no flag contradicted its text. */
  lemma RedactedRecord(r: Fields)
    ensures !HasRawQuery(Redacted(r)) && Redacted(Redacted(r)) == Redacted(r)
    ensures CountsAsEmpty(Redacted(r)) == CountsAsEmpty(r) <==> FlagAgrees(r)
    ensures forall k :: k != "query" && k != "query_empty" && k != "query_text_redacted" ==>
      ((k in Redacted(r) <==> k in r) && (k in r ==> Redacted(r)[k] == r[k]))
  {
    var flag := "query_empty";
    var mark := "query_text_redacted";
    assert |"query"| != |flag| && |flag| != |mark| && |"query"| != |mark|;
  }

  lemma {:induction false} RedactionKeepsTotals(rs: seq<Fields>)
    ensures RawQueries(RedactedAll(rs)) == 0 && RedactedAll(RedactedAll(rs)) == RedactedAll(rs)
    ensures (forall i :: 0 <= i < |rs| ==> FlagAgrees(rs[i])) ==>
              EmptyTotal(RedactedAll(rs)) == EmptyTotal(rs) == |EmptyOnes(rs)|
    ensures RawQueries(rs) == 0 ==> RedactedAll(rs) == rs
  {
    hide Redacted, FlagAgrees, CountsAsEmpty, HasRawQuery;
    EmptyTotalCounts(rs);
    if rs != [] {
      var front, last := rs[..|rs| - 1], rs[|rs| - 1];
      RedactionKeepsTotals(front);
      RedactedRecord(last);
      NoQueryNoChange(last);
      assert RedactedAll(rs)[..|rs| - 1] == RedactedAll(front);
      assert RedactedAll(RedactedAll(rs))[..|rs| - 1] == RedactedAll(RedactedAll(front));
      assert rs == front + [last];
    }
  }

  lemma NoQueryNoChange(r: Fields)
    ensures !HasRawQuery(r) ==> Redacted(r) == r
  {
  }

  datatype Line = Parsed(record: Fields) | Unusable

  /** `_redact_recall_jsonl`: None for a blank, unparsable or non-object line. */
  method RedactLines(lines: seq<Line>) returns (result: Option<(seq<Fields>, nat, nat)>)
    ensures result.None? <==> exists i :: 0 <= i < |lines| && lines[i].Unusable?
    ensures result.Some? ==>
      var rs := seq(|lines|, i requires 0 <= i < |lines| => if lines[i].Parsed? then lines[i].record else map[]);
      && result.value.0 == RedactedAll(rs) && result.value.1 == |lines| && result.value.2 == RawQueries(rs)
  {
    ghost var rs: seq<Fields> := seq(|lines|, i requires 0 <= i < |lines| => if lines[i].Parsed? then lines[i].record else map[]);
    var records: seq<Fields>, redacted := [], 0;
    var i := 0;
    while i < |lines|
      invariant 0 <= i <= |lines|
      invariant forall k :: 0 <= k < i ==> lines[k].Parsed?
      invariant records == RedactedAll(rs[..i]) && redacted == RawQueries(rs[..i])
    {
      if lines[i].Unusable? { return None; }
      var record := lines[i].record;
      assert rs[..i + 1] == rs[..i] + [record];
      assert rs[..i + 1][..i] == rs[..i];
      if "query" in record && record["query"].Str? {
        var empty := Blank(record["query"].text);
        record := record["query_empty" := Bool(empty)]["query_text_redacted" := Bool(true)] - {"query"};
        redacted := redacted + 1;
      }
      records := records + [record];
      i := i + 1;
    }
    assert rs[..i] == rs;
    result := Some((records, |lines|, redacted));
  }

  // ---- The transaction over the family -----------------------------------------------------

  type File = seq<Fields>

  function RedactedFiles(files: seq<File>): (out: seq<File>)
    ensures |out| == |files| && forall i :: 0 <= i < |files| ==> out[i] == RedactedAll(files[i])
  {
    seq(|files|, i requires 0 <= i < |files| => RedactedAll(files[i]))
  }

  function TotalRaw(files: seq<File>): nat {
    if files == [] then 0 else TotalRaw(files[..|files| - 1]) + RawQueries(files[|files| - 1])
  }

  /** The recall family and the disposition log beside it. */
  datatype Evidence = Evidence(files: seq<File>, log: seq<Record>)

  datatype Outcome = Changed | CountChanged | WouldRedact | AlreadyRedacted | RedactionCompleted | Stopped(step: Step)

  datatype Result = Result(evidence: Evidence, outcome: Outcome, rest: Script)

  /** The files with the first `n` of them replaced. */
  function Partly(files: seq<File>, n: nat): seq<File>
    requires n <= |files|
  {
    RedactedFiles(files)[..n] + files[n..]
  }

  function StepFor(f: Fault): Step { match f case Completes => Done case Dies => Died case _ => Raised }

  /** A durable append: a raise after it leaves the record on the log. */
  function Appended(e: Evidence, r: Record, f: Fault): Evidence {
    if f == Completes || f == RaisesAfter then e.(log := e.log + [r]) else e
  }

  /** Replacing the files from `n` on: the count replaced, how it stopped, the faults left.
      A bare rename raises only without effect. */
  function Replace(files: seq<File>, n: nat, script: Script): (r: (nat, Step, Script))
    requires n <= |files|
    ensures n <= r.0 <= |files| && (r.1 == Done <==> r.0 == |files|)
    decreases |files| - n
  {
    if n == |files| then (n, Done, script)
    else if NextFault(script) == Completes then Replace(files, n + 1, Rest(script))
    else (n, StepFor(NextFault(script)), Rest(script))
  }

  /** The exception handler: `aborted` is written only if nothing was published, and a
      failure to write it is swallowed. */
  function Fail(e: Evidence, published: nat, tx: nat, step: Step, script: Script): Result {
    if step == Raised && published == 0 then
      Result(Appended(e, Valid(tx, Aborted), NextFault(script)),
             Stopped(if NextFault(script) == Dies then Died else Raised), Rest(script))
    else Result(e, Stopped(step), script)
  }

  /** From the prepared receipt on: replace every file, sync the directory, append
      `completed`.  The readback between the last two reads what was just written. */
  function Publish(e: Evidence, tx: nat, script: Script): Result {
    var prepared := Appended(e, Valid(tx, Prepared), NextFault(script));
    if NextFault(script) != Completes then Result(prepared, Stopped(StepFor(NextFault(script))), Rest(script))
    else
      var (n, step, rest) := Replace(e.files, 0, Rest(script));
      var replaced := prepared.(files := Partly(e.files, n));
      if step != Done then Fail(replaced, n, tx, step, rest)
      else if NextFault(rest) != Completes then Fail(replaced, n, tx, StepFor(NextFault(rest)), Rest(rest))
      else
        var last := Rest(rest);
        var completed := Appended(replaced, Valid(tx, Completed), NextFault(last));
        if NextFault(last) == Completes then Result(completed, RedactionCompleted, Rest(last))
        else Fail(completed, n, tx, StepFor(NextFault(last)), Rest(last))
  }

  /** `redact_legacy_recall_queries` under its lock, on parsable files. */
  function Redact(e: Evidence, archived: seq<File>, expected: nat, apply: bool, tx: nat, script: Script): Result {
    if archived != e.files then Result(e, Changed, script)
    else if TotalRaw(e.files) != expected then Result(e, CountChanged, script)
    else if !apply then Result(e, WouldRedact, script)
    else if expected == 0 then Result(e, AlreadyRedacted, script)
    else Publish(e, tx, script)
  }

  // ---- What the receipts prove -------------------------------------------------------------

  /** The four things a call can add to the log, and what each says about the files. */
  ghost predicate ReceiptsAreTrue(before: Evidence, after: Evidence, tx: nat) {
    || after == before
    || (after.log == before.log + [Valid(tx, Prepared)]
        && exists n :: 0 <= n <= |before.files| && after.files == Partly(before.files, n))
    || (after.log == before.log + [Valid(tx, Prepared), Valid(tx, Aborted)] && after.files == before.files)
    || (after.log == before.log + [Valid(tx, Prepared), Valid(tx, Completed)] && after.files == RedactedFiles(before.files))
  }

  lemma PartlyEnds(files: seq<File>)
    ensures Partly(files, 0) == files && Partly(files, |files|) == RedactedFiles(files)
  {
  }

  lemma PublishIsTrue(e: Evidence, tx: nat, script: Script)
    requires |e.files| > 0
    ensures ReceiptsAreTrue(e, Publish(e, tx, script).evidence, tx)
    ensures Publish(e, tx, script).outcome == RedactionCompleted ==>
      Publish(e, tx, script).evidence == Evidence(RedactedFiles(e.files), e.log + [Valid(tx, Prepared), Valid(tx, Completed)])
    ensures NoFaults(script) ==> Publish(e, tx, script).outcome == RedactionCompleted
  {
    hide Partly, RedactedFiles;
    PartlyEnds(e.files);
    var after := Publish(e, tx, script).evidence;
    var n := Replace(e.files, 0, Rest(script)).0;
    if NextFault(script) == Completes {
      assert e.log + [Valid(tx, Prepared)] + [Valid(tx, Aborted)] == e.log + [Valid(tx, Prepared), Valid(tx, Aborted)];
      assert e.log + [Valid(tx, Prepared)] + [Valid(tx, Completed)] == e.log + [Valid(tx, Prepared), Valid(tx, Completed)];
    }
    assert after.log == e.log + [Valid(tx, Prepared)] ==> after.files == Partly(e.files, n) || after.files == Partly(e.files, 0);
    if NoFaults(script) { CleanReplace(e.files, 0, Rest(script)); }
  }

  lemma {:induction false} CleanReplace(files: seq<File>, n: nat, script: Script)
    requires n <= |files| && NoFaults(script)
    ensures Replace(files, n, script).1 == Done && NoFaults(Replace(files, n, script).2)
    decreases |files| - n
  {
    if n < |files| { CleanReplace(files, n + 1, Rest(script)); }
  }

  lemma {:induction false} RawMeansFiles(files: seq<File>)
    ensures TotalRaw(files) > 0 ==> |files| > 0
  {
  }

  /** Wherever a call stops, what it logged is true of the files: nothing logged or
      `aborted`, nothing replaced; `completed`, everything replaced. */
  lemma RedactIsTrue(e: Evidence, archived: seq<File>, expected: nat, apply: bool, tx: nat, script: Script)
    ensures ReceiptsAreTrue(e, Redact(e, archived, expected, apply, tx, script).evidence, tx)
    ensures Redact(e, archived, expected, apply, tx, script).outcome == RedactionCompleted ==>
      Redact(e, archived, expected, apply, tx, script).evidence.files == RedactedFiles(e.files)
  {
    hide Publish;
    RawMeansFiles(e.files);
    if |e.files| > 0 { PublishIsTrue(e, tx, script); }
  }

  lemma LatestAfter(log: seq<Record>, tx: nat, status: Status)
    ensures Latest(log + [Valid(tx, status)]) == Latest(log)[tx := status]
  {
    assert (log + [Valid(tx, status)])[..|log|] == log;
  }

  /** A half-redacted family is never reported clear: if no transaction is open, either
      no file was replaced or every one was. */
  lemma ClearMeansAllOrNothing(e: Evidence, archived: seq<File>, expected: nat, apply: bool, tx: nat, script: Script)
    ensures
      var after := Redact(e, archived, expected, apply, tx, script).evidence;
      Settled(after.log) ==> after.files == e.files || after.files == RedactedFiles(e.files)
  {
    var after := Redact(e, archived, expected, apply, tx, script).evidence;
    RedactIsTrue(e, archived, expected, apply, tx, script);
    if after.log == e.log + [Valid(tx, Prepared)] {
      LatestAfter(e.log, tx, Prepared);
      NoneOpenIffSettled(after.log);
      assert tx in Latest(after.log) && Latest(after.log)[tx].Prepared?;
    }
  }

  lemma RedactTwice(files: seq<File>, n: nat)
    requires n <= |files|
    ensures RedactedFiles(Partly(files, n)) == RedactedFiles(files)
  {
    forall i | 0 <= i < |files| ensures RedactedFiles(Partly(files, n))[i] == RedactedFiles(files)[i] {
      RedactionKeepsTotals(files[i]);
    }
  }

  lemma {:induction false} NothingLeftToRedact(files: seq<File>)
    requires TotalRaw(files) == 0
    ensures RedactedFiles(files) == files
  {
    if files != [] {
      var n := |files| - 1;
      NothingLeftToRedact(files[..n]);
      RedactionKeepsTotals(files[n]);
      forall i | 0 <= i < |files| ensures RedactedFiles(files)[i] == files[i] {
        assert i < n ==> RedactedFiles(files[..n])[i] == files[..n][i];
      }
    }
  }

  /** Wherever a call stopped, a new archive and an undisturbed call with the count that is
      left give the files that one undisturbed call would have given. */
  lemma RerunConverges(e: Evidence, archived: seq<File>, expected: nat, tx: nat, script: Script, again: nat)
    ensures
      var mid := Redact(e, archived, expected, true, tx, script).evidence;
      var end := Redact(mid, mid.files, TotalRaw(mid.files), true, again, []);
      && end.evidence.files == RedactedFiles(e.files)
      && (end.outcome == RedactionCompleted || end.outcome == AlreadyRedacted)
  {
    hide Publish, Partly;
    var mid := Redact(e, archived, expected, true, tx, script).evidence;
    RedactIsTrue(e, archived, expected, true, tx, script);
    PartlyEnds(e.files);
    RedactTwice(e.files, 0);
    RedactTwice(e.files, |e.files|);
    if exists n :: 0 <= n <= |e.files| && mid.files == Partly(e.files, n) {
      var n :| 0 <= n <= |e.files| && mid.files == Partly(e.files, n);
      RedactTwice(e.files, n);
    }
    assert RedactedFiles(mid.files) == RedactedFiles(e.files);
    RawMeansFiles(mid.files);
    if TotalRaw(mid.files) == 0 { NothingLeftToRedact(mid.files); } else { PublishIsTrue(mid, again, []); }
  }

  // ---- Answers and stops -----------------------------------------------------------------------

  predicate AllComplete(script: Script, k: nat) { forall i :: 0 <= i < k && i < |script| ==> script[i] == Completes }

  function FaultAt(script: Script, k: nat): Fault { if k < |script| then script[k] else Completes }

  function Skip(script: Script, k: nat): Script { if k < |script| then script[k..] else [] }

  lemma SkipOne(script: Script, k: nat)
    ensures NextFault(Skip(script, k)) == FaultAt(script, k) && Rest(Skip(script, k)) == Skip(script, k + 1)
  {
  }

  /** Renames go on until a fault, or through all the files. */
  lemma {:induction false} ReplaceRuns(files: seq<File>, n: nat, script: Script, k: nat)
    requires n + k <= |files| && AllComplete(script, k)
    ensures Replace(files, n, script) == Replace(files, n + k, Skip(script, k))
    decreases k
  {
    if k > 0 {
      assert NextFault(script) == Completes;
      assert AllComplete(Rest(script), k - 1);
      ReplaceRuns(files, n + 1, Rest(script), k - 1);
      assert Skip(Rest(script), k - 1) == Skip(script, k);
    } else {
      assert Skip(script, 0) == script;
    }
  }

  /** The four answers that a call gives before it writes, each with its exact cause, and
      with nothing changed; past them it redacts. */
  lemma AnsweredBeforeWriting(e: Evidence, archived: seq<File>, expected: nat, apply: bool, tx: nat, script: Script)
    ensures
      var r := Redact(e, archived, expected, apply, tx, script);
      && (r.outcome == Changed <==> archived != e.files)
      && (r.outcome == CountChanged <==> archived == e.files && TotalRaw(e.files) != expected)
      && (r.outcome == WouldRedact <==> archived == e.files && TotalRaw(e.files) == expected && !apply)
      && (r.outcome == AlreadyRedacted <==> archived == e.files && TotalRaw(e.files) == expected == 0 && apply)
      && (r.outcome in {Changed, CountChanged, WouldRedact, AlreadyRedacted} ==> r.evidence == e)
  {
    hide Replace;
  }

  /** A redaction of n files takes n + 3 durable steps: `prepared`, n renames, a directory
      sync, `completed`.  The first that does not complete decides everything: which files
      are replaced, what was logged, and how the call stopped.  Here it is `prepared`. */
  lemma StopsAtPrepared(e: Evidence, tx: nat, script: Script)
    requires FaultAt(script, 0) != Completes
    ensures
      var r, f := Publish(e, tx, script), FaultAt(script, 0);
      && r.evidence == Evidence(e.files, if f == RaisesAfter then e.log + [Valid(tx, Prepared)] else e.log)
      && r.outcome == Stopped(if f == Dies then Died else Raised)
  {
  }

  lemma Renames(e: Evidence, tx: nat, script: Script, k: nat)
    requires 0 < k <= |e.files| + 1 && AllComplete(script, k)
    requires k <= |e.files| ==> FaultAt(script, k) != Completes
    ensures FaultAt(script, 0) == Completes
    ensures
      Replace(e.files, 0, Rest(script))
      == if k <= |e.files| then (k - 1, StepFor(FaultAt(script, k)), Skip(script, k + 1))
         else (|e.files|, Done, Skip(script, k))
  {
    assert Skip(script, 0) == script;
    SkipOne(script, 0);
    assert AllComplete(Skip(script, 1), k - 1);
    ReplaceRuns(e.files, 0, Skip(script, 1), k - 1);
    assert Skip(Skip(script, 1), k - 1) == Skip(script, k);
    SkipOne(script, k);
  }

  /** A rename fails.  `aborted` is logged only after the first one, only if it raised, and
      only if logging works. */
  lemma StopsAtRename(e: Evidence, tx: nat, script: Script, k: nat)
    requires 0 < k <= |e.files| && AllComplete(script, k) && FaultAt(script, k) != Completes
    ensures
      var r, f, g := Publish(e, tx, script), FaultAt(script, k), FaultAt(script, k + 1);
      var prepared := e.log + [Valid(tx, Prepared)];
      if k == 1 && f != Dies then
        && r.evidence == Evidence(e.files, if g == Completes || g == RaisesAfter then prepared + [Valid(tx, Aborted)] else prepared)
        && r.outcome == Stopped(if g == Dies then Died else Raised)
      else
        && r.evidence == Evidence(Partly(e.files, k - 1), prepared)
        && r.outcome == Stopped(if f == Dies then Died else Raised)
  {
    hide Partly, Replace;
    Renames(e, tx, script, k);
    PartlyEnds(e.files);
    SkipOne(script, k + 1);
  }

  /** The sync fails, or `completed`, or nothing does. */
  lemma StopsAfterRenames(e: Evidence, tx: nat, script: Script)
    requires |e.files| > 0 && AllComplete(script, |e.files| + 1)
    ensures
      var r, f, g := Publish(e, tx, script), FaultAt(script, |e.files| + 1), FaultAt(script, |e.files| + 2);
      var prepared := e.log + [Valid(tx, Prepared)];
      var stop := if f != Completes then f else g;
      && r.evidence == Evidence(RedactedFiles(e.files), if f == Completes && (g == Completes || g == RaisesAfter)
                                                        then prepared + [Valid(tx, Completed)] else prepared)
      && r.outcome == if stop == Completes then RedactionCompleted else Stopped(if stop == Dies then Died else Raised)
  {
    hide Partly, RedactedFiles, Replace;
    Renames(e, tx, script, |e.files| + 1);
    PartlyEnds(e.files);
    SkipOne(script, |e.files| + 1);
    SkipOne(script, |e.files| + 2);
  }

  // ---- Later calls -------------------------------------------------------------------------

  datatype Attempt = Attempt(archived: seq<File>, expected: nat, apply: bool, tx: nat, script: Script)

  function RunAttempts(e: Evidence, attempts: seq<Attempt>): Evidence
    decreases |attempts|
  {
    if attempts == [] then e
    else
      var a := attempts[0];
      RunAttempts(Redact(e, a.archived, a.expected, a.apply, a.tx, a.script).evidence, attempts[1..])
  }

  /** An interrupted transaction stays open: no later redaction, however successful, closes
      it, because each call closes only the transaction that it opened. */
  lemma {:induction false} OpenStaysOpen(e: Evidence, attempts: seq<Attempt>, tx: nat)
    requires tx in Latest(e.log) && Latest(e.log)[tx].Prepared?
    requires forall i :: 0 <= i < |attempts| ==> attempts[i].tx != tx
    ensures !Settled(RunAttempts(e, attempts).log)
    decreases |attempts|
  {
    if attempts == [] {
      NoneOpenIffSettled(e.log);
    } else {
      var a := attempts[0];
      var next := Redact(e, a.archived, a.expected, a.apply, a.tx, a.script).evidence;
      RedactIsTrue(e, a.archived, a.expected, a.apply, a.tx, a.script);
      LatestAfter(e.log, a.tx, Prepared);
      var prepared := e.log + [Valid(a.tx, Prepared)];
      forall status: Status
        ensures Latest(e.log + [Valid(a.tx, Prepared), Valid(a.tx, status)]) == Latest(prepared)[a.tx := status]
      {
        LatestAfter(prepared, a.tx, status);
        assert prepared + [Valid(a.tx, status)] == e.log + [Valid(a.tx, Prepared), Valid(a.tx, status)];
      }
      hide Redact;
      assert tx in Latest(next.log) && Latest(next.log)[tx].Prepared?;
      OpenStaysOpen(next, attempts[1..], tx);
    }
  }

  /** A redaction that completes settles its own transaction and no other: the log is
      settled after it exactly when it was before. */
  lemma CompletedSettlesOnlyItself(e: Evidence, archived: seq<File>, expected: nat, apply: bool, tx: nat, script: Script)
    requires tx !in Latest(e.log) && Redact(e, archived, expected, apply, tx, script).outcome == RedactionCompleted
    ensures Settled(Redact(e, archived, expected, apply, tx, script).evidence.log) <==> Settled(e.log)
  {
    hide Publish;
    RawMeansFiles(e.files);
    PublishIsTrue(e, tx, script);
    var after := Redact(e, archived, expected, apply, tx, script).evidence.log;
    var prepared := e.log + [Valid(tx, Prepared)];
    assert after == prepared + [Valid(tx, Completed)];
    LatestAfter(e.log, tx, Prepared);
    LatestAfter(prepared, tx, Completed);
    NoneOpenIffSettled(e.log);
    NoneOpenIffSettled(after);
    assert forall other :: other in Latest(e.log) ==> other in Latest(after) && Latest(after)[other] == Latest(e.log)[other];
  }
}
