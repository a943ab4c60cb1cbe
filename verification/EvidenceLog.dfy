// A JSONL family: one active file and its preserved rotation segments.

module EvidenceLog {
  import opened Common
  import opened JsonlBytes

  /** A segment name: the "time.pid" stem as its sort key, then the collision counter. */
  datatype Name = Name(stem: nat, collision: nat)

  predicate Older(a: Name, b: Name) {
    a.stem < b.stem || (a.stem == b.stem && a.collision < b.collision)
  }

  predicate NewerThanAll(n: Name, names: set<Name>) { forall x :: x in names ==> Older(x, n) }

  predicate NewerOrIs(n: Name, names: set<Name>) { forall x :: x in names ==> x == n || Older(x, n) }

  lemma {:induction false} NewestExists(names: set<Name>)
    requires names != {}
    ensures exists n :: n in names && NewerOrIs(n, names)
    decreases |names|
  {
    var a :| a in names;
    var rest := names - {a};
    assert names == rest + {a};
    if rest == {} {
      assert NewerOrIs(a, names);
    } else {
      NewestExists(rest);
      var n :| n in rest && NewerOrIs(n, rest);
      assert NewerOrIs(if Older(n, a) then a else n, names);
    }
  }

  function Newest(names: set<Name>): (n: Name)
    requires names != {}
    ensures n in names && NewerOrIs(n, names)
  {
    NewestExists(names);
    var n :| n in names && NewerOrIs(n, names);
    n
  }

  datatype Family = Family(active: Option<Bytes>, segments: map<Name, Bytes>)

  /** `jsonl_family_paths`, as contents: the active file, then segments newest first. */
  function Files(f: Family): seq<Bytes> {
    (if f.active.Some? then [f.active.value] else []) + SegmentFiles(f.segments)
  }

  function SegmentFiles(segments: map<Name, Bytes>): seq<Bytes>
    decreases |segments.Keys|
  {
    if segments.Keys == {} then []
    else
      var n := Newest(segments.Keys);
      assert (segments - {n}).Keys == segments.Keys - {n};
      [segments[n]] + SegmentFiles(segments - {n})
  }

  /** Oldest-to-newest concatenation of files given newest first. */
  function Log(files: seq<Bytes>): Bytes {
    if files == [] then [] else Log(files[1..]) + files[0]
  }

  predicate AllOnBoundary(files: seq<Bytes>) { forall i :: 0 <= i < |files| ==> OnBoundary(files[i]) }

  // ---- Reading a family ---------------------------------------------------------------

  lemma {:induction false} LogOnBoundary(files: seq<Bytes>)
    requires AllOnBoundary(files)
    ensures OnBoundary(Log(files))
  {
    if files != [] {
      LogOnBoundary(files[1..]);
      SplitAppend(Log(files[1..]), files[0]);
    }
  }

  /** A budget is spent on the newest records first; what they leave goes further back. */
  lemma {:induction false} LastWithinAppend(older: seq<Bytes>, newer: seq<Bytes>, n: int)
    ensures LastWithin(older + newer, n) ==
            if |Concat(newer)| <= n then LastWithin(older, n - |Concat(newer)|) + newer else LastWithin(newer, n)
  {
    ConcatAppend(older, newer);
    if older == [] {
      assert older + newer == newer;
    } else if |Concat(older + newer)| > n {
      assert (older + newer)[1..] == older[1..] + newer;
      LastWithinAppend(older[1..], newer, n);
    }
  }

  lemma {:induction false} LastWithinNothing(recs: seq<Bytes>, n: int)
    requires n <= 0
    ensures LastWithin(recs, n) == []
  {
    if recs != [] { LastWithinNothing(recs[1..], n); }
  }

  /** Newest-first answer of the simple log, restricted to decodable objects. */
  function Simple(files: seq<Bytes>, budget: int, valid: Bytes -> bool): seq<Bytes> {
    Reverse(Filter(LastWithin(SplitLines(Log(files)), budget), valid))
  }

  lemma SimpleNothing(files: seq<Bytes>, budget: int, valid: Bytes -> bool)
    requires budget <= 0 || files == []
    ensures Simple(files, budget, valid) == []
  {
    if budget <= 0 { LastWithinNothing(SplitLines(Log(files)), budget); }
  }

  lemma SimpleStep(files: seq<Bytes>, budget: int, valid: Bytes -> bool)
    requires files != [] && AllOnBoundary(files)
    ensures Simple(files, budget, valid) ==
            if |files[0]| <= budget
            then Reverse(Filter(SplitLines(files[0]), valid)) + Simple(files[1..], budget - |files[0]|, valid)
            else Reverse(Filter(LastWithin(SplitLines(files[0]), budget), valid))
  {
    hide SplitLines, Reverse, Filter, LastWithin, Concat, OnBoundary;
    var older, newest := Log(files[1..]), files[0];
    assert OnBoundary(files[0]) && AllOnBoundary(files[1..]);
    LogOnBoundary(files[1..]);
    SplitAppend(older, newest);
    ConcatSplit(newest);
    LastWithinAppend(SplitLines(older), SplitLines(newest), budget);
    if |newest| <= budget {
      var back := LastWithin(SplitLines(older), budget - |newest|);
      FilterAppend(back, SplitLines(newest), valid);
      ReverseAppend(Filter(back, valid), Filter(SplitLines(newest), valid));
    }
  }

  /** Newest file first, each read within what the newer ones left of the budget. */
  function FamilyReverse(files: seq<Bytes>, remaining: int, valid: Bytes -> bool): seq<Bytes> {
    if files == [] || remaining <= 0 then []
    else
      var budget := if |files[0]| < remaining then |files[0]| else remaining;
      FileReverse(files[0], budget, valid) + FamilyReverse(files[1..], remaining - budget, valid)
  }

  /** `iter_jsonl_family_reverse`. */
  method ReadFamilyReverse(files: seq<Bytes>, maxBytes: int, valid: Bytes -> bool) returns (out: seq<Bytes>)
    ensures out == FamilyReverse(files, maxBytes, valid)
  {
    hide FileReverse;
    out := [];
    var remaining := maxBytes;
    var i := 0;
    assert files[0..] == files;
    while i < |files| && remaining > 0
      invariant 0 <= i <= |files|
      invariant FamilyReverse(files, maxBytes, valid) == out + FamilyReverse(files[i..], remaining, valid)
    {
      hide FamilyReverse;
      var budget := if |files[i]| < remaining then |files[i]| else remaining;
      NextFile(files, i, remaining, valid);
      var part := ReadReverse(files[i], budget, valid);
      out := out + part;
      remaining := remaining - budget;
      i := i + 1;
    }
    assert FamilyReverse(files[i..], remaining, valid) == [];
  }

  lemma NextFile(files: seq<Bytes>, i: nat, remaining: int, valid: Bytes -> bool)
    requires i < |files| && remaining > 0
    ensures
      var budget := if |files[i]| < remaining then |files[i]| else remaining;
      FamilyReverse(files[i..], remaining, valid)
      == FileReverse(files[i], budget, valid) + FamilyReverse(files[i + 1..], remaining - budget, valid)
  {
    hide FileReverse;
    assert files[i..][0] == files[i] && files[i..][1..] == files[i + 1..];
  }

  /** The family reader refines the simple log: exactly, newest first, the objects
      among the records lying wholly inside the last `budget` bytes. */
  lemma {:induction false} FamilyReverseIsSimple(files: seq<Bytes>, budget: int, valid: Bytes -> bool)
    requires AllOnBoundary(files)
    ensures FamilyReverse(files, budget, valid) == Simple(files, budget, valid)
  {
    hide FileReverse, Simple, SplitLines, Reverse, Filter, LastWithin, Log, Window, OnBoundary;
    if budget <= 0 || files == [] {
      SimpleNothing(files, budget, valid);
    } else {
      SimpleStep(files, budget, valid);
      FileReverseIsSimple(files[0], budget, valid);
      if |files[0]| <= budget {
        FamilyReverseIsSimple(files[1..], budget - |files[0]|, valid);
      } else {
        var newest := FileReverse(files[0], budget, valid);
        assert FamilyReverse(files[1..], 0, valid) == [] && newest + [] == newest;
      }
    }
  }

  /** One file: a budget of the whole file cuts nothing off, a smaller one fits a suffix. */
  lemma FileReverseIsSimple(file: Bytes, budget: int, valid: Bytes -> bool)
    requires OnBoundary(file) && budget > 0
    ensures |file| <= budget ==> FileReverse(file, |file|, valid) == Reverse(Filter(SplitLines(file), valid))
    ensures |file| > budget ==> FileReverse(file, budget, valid) == Reverse(Filter(LastWithin(SplitLines(file), budget), valid))
  {
    ConcatSplit(file);
    if file != [] {
      WindowIsLastWithin(SplitLines(file), |file|);
      WindowIsLastWithin(SplitLines(file), budget);
    }
  }

  // ---- Appending ------------------------------------------------------------------------

  /** What one append writes, given the segment name it would rotate to. */
  function Appended(f: Family, record: Bytes, rotateBytes: nat, n: Name): Family {
    if MustRotate(f, record, rotateBytes)
    then Family(Some(Encode(record)), f.segments[n := f.active.value])
    else Family(Some((if f.active.Some? then f.active.value else []) + Encode(record)), f.segments)
  }

  predicate MustRotate(f: Family, record: Bytes, rotateBytes: nat) {
    f.active.Some? && |f.active.value| > 0 && |f.active.value| + |Encode(record)| > rotateBytes
  }

  predicate WellFormed(f: Family) {
    && (f.active.Some? ==> OnBoundary(f.active.value))
    && forall n :: n in f.segments ==> OnBoundary(f.segments[n])
  }

  lemma {:induction false} SegmentsOnBoundary(segments: map<Name, Bytes>)
    requires forall n :: n in segments ==> OnBoundary(segments[n])
    ensures AllOnBoundary(SegmentFiles(segments))
    decreases |segments.Keys|
  {
    if segments.Keys != {} {
      var n := Newest(segments.Keys);
      assert (segments - {n}).Keys == segments.Keys - {n};
      SegmentsOnBoundary(segments - {n});
    }
  }

  /** A segment newer than all the others is read first. */
  lemma NewestSegmentFirst(segments: map<Name, Bytes>, n: Name, file: Bytes)
    requires NewerThanAll(n, segments.Keys)
    ensures SegmentFiles(segments[n := file]) == [file] + SegmentFiles(segments)
  {
    var more := segments[n := file];
    assert n in more.Keys && n !in segments;
    var top := Newest(more.Keys);
    assert top != n ==> top in segments.Keys && Older(n, top);
    assert more - {n} == segments;
  }

  lemma LogCons(newest: Bytes, files: seq<Bytes>)
    ensures Log([newest] + files) == Log(files) + newest
  {
    assert ([newest] + files)[1..] == files;
  }

  /** Rotation in name order loses nothing and reorders nothing. */
  lemma AppendedExtendsTheLog(f: Family, record: Bytes, rotateBytes: nat, n: Name)
    requires MustRotate(f, record, rotateBytes) ==> NewerThanAll(n, f.segments.Keys)
    ensures Log(Files(Appended(f, record, rotateBytes, n))) == Log(Files(f)) + Encode(record)
  {
    var segs := SegmentFiles(f.segments);
    var before := if f.active.Some? then f.active.value else [];
    if f.active.Some? { LogCons(before, segs); }
    if MustRotate(f, record, rotateBytes) {
      NewestSegmentFirst(f.segments, n, before);
      LogCons(Encode(record), [before] + segs);
    } else {
      LogCons(before + Encode(record), segs);
      assert Log(segs) + (before + Encode(record)) == (Log(segs) + before) + Encode(record);
      if f.active.None? { assert Files(f) == segs && Log(segs) + before == Log(segs); }
    }
  }

  /** Every file still ends on a record boundary, and the active one stays bounded. */
  lemma AppendedStaysWellFormed(f: Family, record: Bytes, rotateBytes: nat, n: Name)
    requires WellFormed(f) && IsLine(record)
    ensures var g := Appended(f, record, rotateBytes, n);
            && WellFormed(g) && g.active.Some?
            && |g.active.value| <= (if rotateBytes > |Encode(record)| then rotateBytes else |Encode(record)|)
  {
    ConcatOnBoundary([record]);
    assert Concat([record]) == Encode(record);
    if f.active.Some? { SplitAppend(f.active.value, Encode(record)); }
  }

  /** One call of the run: a record and the segment name it would rotate to. */
  datatype Call = Call(record: Bytes, name: Name)

  function RunAppends(f: Family, calls: seq<Call>, rotateBytes: nat): Family
    decreases |calls|
  {
    if calls == [] then f else RunAppends(Appended(f, calls[0].record, rotateBytes, calls[0].name), calls[1..], rotateBytes)
  }

  function RecordsOf(calls: seq<Call>): seq<Bytes> {
    if calls == [] then [] else [calls[0].record] + RecordsOf(calls[1..])
  }

  /** Every segment gets a name newer than those it finds. */
  predicate InRotationOrder(f: Family, calls: seq<Call>, rotateBytes: nat)
    decreases |calls|
  {
    calls == [] ||
    (&& (MustRotate(f, calls[0].record, rotateBytes) ==> NewerThanAll(calls[0].name, f.segments.Keys))
     && InRotationOrder(Appended(f, calls[0].record, rotateBytes, calls[0].name), calls[1..], rotateBytes))
  }

  predicate AllRecordLines(calls: seq<Call>) { forall i :: 0 <= i < |calls| ==> IsLine(calls[i].record) }

  /** Appending to a log that ends on a boundary appends one record. */
  lemma OneMoreRecord(log: Bytes, record: Bytes)
    requires OnBoundary(log) && IsLine(record)
    ensures SplitLines(log + Encode(record)) == SplitLines(log) + [record]
  {
    ConcatOnBoundary([record]);
    SplitConcat([record]);
    assert Concat([record]) == Encode(record);
    SplitAppend(log, Encode(record));
  }

  lemma OneAppendAddsItsRecord(f: Family, record: Bytes, rotateBytes: nat, n: Name)
    requires WellFormed(f) && IsLine(record)
    requires MustRotate(f, record, rotateBytes) ==> NewerThanAll(n, f.segments.Keys)
    ensures
      var g := Appended(f, record, rotateBytes, n);
      WellFormed(g) && SplitLines(Log(Files(g))) == SplitLines(Log(Files(f))) + [record]
  {
    hide SplitLines, Log, Files, WellFormed, Appended, MustRotate;
    AppendedExtendsTheLog(f, record, rotateBytes, n);
    AppendedStaysWellFormed(f, record, rotateBytes, n);
    FilesOnBoundary(f);
    LogOnBoundary(Files(f));
    OneMoreRecord(Log(Files(f)), record);
  }

  /** Any run of appends and rotations keeps every record, in order. */
  lemma {:induction false} RunsKeepEveryRecordInOrder(f: Family, calls: seq<Call>, rotateBytes: nat)
    requires WellFormed(f) && AllRecordLines(calls) && InRotationOrder(f, calls, rotateBytes)
    ensures WellFormed(RunAppends(f, calls, rotateBytes))
    ensures SplitLines(Log(Files(RunAppends(f, calls, rotateBytes)))) == SplitLines(Log(Files(f))) + RecordsOf(calls)
    decreases |calls|
  {
    hide SplitLines, Log, Files, WellFormed, Appended, MustRotate;
    if calls != [] {
      var c, rest := calls[0], calls[1..];
      OneAppendAddsItsRecord(f, c.record, rotateBytes, c.name);
      RunsKeepEveryRecordInOrder(Appended(f, c.record, rotateBytes, c.name), rest, rotateBytes);
    }
  }

  lemma FilesOnBoundary(f: Family)
    requires WellFormed(f)
    ensures AllOnBoundary(Files(f))
  {
    SegmentsOnBoundary(f.segments);
  }

  /** Writer and reader together: after any run from an empty family, the family reader
      yields with any budget, newest first, exactly the objects among the longest suffix
      of the appended records that fits. */
  lemma ReadAfterRun(calls: seq<Call>, rotateBytes: nat, budget: int, valid: Bytes -> bool)
    requires AllRecordLines(calls) && InRotationOrder(Family(None, map[]), calls, rotateBytes)
    ensures FamilyReverse(Files(RunAppends(Family(None, map[]), calls, rotateBytes)), budget, valid) ==
            Reverse(Filter(LastWithin(RecordsOf(calls), budget), valid))
  {
    var empty := Family(None, map[]);
    var end := RunAppends(empty, calls, rotateBytes);
    RunsKeepEveryRecordInOrder(empty, calls, rotateBytes);
    EmptyLog();
    assert [] + RecordsOf(calls) == RecordsOf(calls);
    FilesOnBoundary(end);
    FamilyReverseIsSimple(Files(end), budget, valid);
  }

  lemma EmptyLog()
    ensures Files(Family(None, map[])) == [] && SplitLines(Log(Files(Family(None, map[])))) == []
  {
  }

  // ---- Names --------------------------------------------------------------------------

  /** What the collision counter finds. */
  predicate FirstFree(names: set<Name>, n: Name) {
    n !in names && forall c :: 0 <= c < n.collision ==> Name(n.stem, c) in names
  }

  ghost predicate Gapless(names: set<Name>) { forall x, c: nat :: x in names && c < x.collision ==> Name(x.stem, c) in names }

  predicate StemsUpTo(names: set<Name>, stem: nat) { forall x :: x in names ==> x.stem <= stem }

  /** While the clock does not step back, the counter keeps its names gapless and so finds
      a name newer than all others. */
  lemma FirstFreeIsNewest(names: set<Name>, n: Name)
    requires Gapless(names) && StemsUpTo(names, n.stem) && FirstFree(names, n)
    ensures NewerThanAll(n, names) && Gapless(names + {n})
  {
    forall x | x in names ensures Older(x, n) {
      assert x.stem == n.stem && x.collision > n.collision ==> Name(x.stem, n.collision) in names;
    }
  }

  /** Each call uses the first free name of its stem. */
  predicate CountedNames(f: Family, calls: seq<Call>, rotateBytes: nat)
    decreases |calls|
  {
    calls == [] ||
    (&& FirstFree(f.segments.Keys, calls[0].name)
     && CountedNames(Appended(f, calls[0].record, rotateBytes, calls[0].name), calls[1..], rotateBytes))
  }

  /** Names from the collision counter under a clock that never steps back, nor starts
      before the segments that it finds, are in rotation order. */
  lemma {:induction false} SteadyClockKeepsRotationOrder(f: Family, calls: seq<Call>, rotateBytes: nat)
    requires Gapless(f.segments.Keys) && CountedNames(f, calls, rotateBytes)
    requires calls != [] ==> StemsUpTo(f.segments.Keys, calls[0].name.stem)
    requires forall i, k :: 0 <= i < k < |calls| ==> calls[i].name.stem <= calls[k].name.stem
    ensures InRotationOrder(f, calls, rotateBytes)
    decreases |calls|
  {
    if calls != [] {
      var n, rest := calls[0].name, calls[1..];
      var g := Appended(f, calls[0].record, rotateBytes, n);
      FirstFreeIsNewest(f.segments.Keys, n);
      assert g.segments.Keys == f.segments.Keys || g.segments.Keys == f.segments.Keys + {n};
      assert rest != [] ==> StemsUpTo(g.segments.Keys, rest[0].name.stem);
      SteadyClockKeepsRotationOrder(g, rest, rotateBytes);
    }
  }

  // ---- Names out of order -------------------------------------------------------------

  /** The segments that a name sorts before. */
  function SortedAfter(segments: map<Name, Bytes>, n: Name): map<Name, Bytes> {
    map m | m in segments && Older(n, m) :: segments[m]
  }

  function SortedBefore(segments: map<Name, Bytes>, n: Name): map<Name, Bytes> {
    map m | m in segments && Older(m, n) :: segments[m]
  }

  lemma NewestSegmentOf(segments: map<Name, Bytes>, top: Name)
    requires top in segments && NewerOrIs(top, segments.Keys)
    ensures SegmentFiles(segments) == [segments[top]] + SegmentFiles(segments - {top})
  {
    assert Newest(segments.Keys) == top;
  }

  /** The segments of two parts, every name of the one being newer than `n` and no name of
      the other. */
  ghost predicate Parts(segments: map<Name, Bytes>, n: Name, newer: map<Name, Bytes>, older: map<Name, Bytes>) {
    && segments.Keys == newer.Keys + older.Keys
    && (forall m :: m in newer ==> Older(n, m) && segments[m] == newer[m])
    && (forall m :: m in older ==> (m == n || Older(m, n)) && segments[m] == older[m])
  }

  lemma NewestOfParts(segments: map<Name, Bytes>, n: Name, newer: map<Name, Bytes>, older: map<Name, Bytes>)
    requires Parts(segments, n, newer, older) && newer.Keys != {}
    ensures
      var top := Newest(newer.Keys);
      && top in segments && segments[top] == newer[top] && NewerOrIs(top, segments.Keys)
      && Parts(segments - {top}, n, newer - {top}, older)
  {
    var top := Newest(newer.Keys);
    forall m | m in segments ensures m == top || Older(m, top) { assert m in newer.Keys || m in older.Keys; }
    assert top !in older;
  }

  lemma NoNewerPart(segments: map<Name, Bytes>, n: Name, newer: map<Name, Bytes>, older: map<Name, Bytes>)
    requires Parts(segments, n, newer, older) && newer.Keys == {}
    ensures segments == older && SegmentFiles(newer) == []
  {
  }

  lemma FewerKeys(segments: map<Name, Bytes>, n: Name)
    requires n in segments
    ensures |(segments - {n}).Keys| < |segments.Keys|
  {
    assert (segments - {n}).Keys == segments.Keys - {n};
  }

  lemma Reassociated(a: seq<Bytes>, b: seq<Bytes>, c: seq<Bytes>)
    ensures a + (b + c) == (a + b) + c
  {
  }

  /** Two parts, one wholly newer than the other, are read one after the other. */
  lemma {:induction false} SplitAround(segments: map<Name, Bytes>, n: Name, newer: map<Name, Bytes>, older: map<Name, Bytes>)
    requires Parts(segments, n, newer, older)
    ensures SegmentFiles(segments) == SegmentFiles(newer) + SegmentFiles(older)
    decreases |newer.Keys|
  {
    hide SegmentFiles, Older, Parts, NewerOrIs;
    if newer.Keys == {} {
      NoNewerPart(segments, n, newer, older);
    } else {
      var top := Newest(newer.Keys);
      var rest := newer - {top};
      NewestOfParts(segments, n, newer, older);
      assert NewerOrIs(top, newer.Keys);
      NewestSegmentOf(segments, top);
      NewestSegmentOf(newer, top);
      FewerKeys(newer, top);
      var fewer := segments - {top};
      SplitAround(fewer, n, rest, older);
      Reassociated([newer[top]], SegmentFiles(rest), SegmentFiles(older));
    }
  }

  /** A name splits the segments into those read before it and those read after it. */
  lemma NameSplitsSegments(segments: map<Name, Bytes>, n: Name)
    requires n !in segments
    ensures SegmentFiles(segments) == SegmentFiles(SortedAfter(segments, n)) + SegmentFiles(SortedBefore(segments, n))
  {
    hide SegmentFiles;
    forall m | m in segments ensures Older(n, m) || Older(m, n) {}
    SplitAround(segments, n, SortedAfter(segments, n), SortedBefore(segments, n));
  }

  lemma {:induction false} LogAppend(newer: seq<Bytes>, older: seq<Bytes>)
    ensures Log(newer + older) == Log(older) + Log(newer)
  {
    if newer == [] {
      assert newer + older == older;
    } else {
      assert (newer + older)[1..] == newer[1..] + older;
      LogAppend(newer[1..], older);
    }
  }

  /** Where a new segment is read: behind the ones that its name sorts before. */
  lemma SegmentAmongOthers(segments: map<Name, Bytes>, n: Name, file: Bytes)
    requires n !in segments
    ensures
      var newer, older := SegmentFiles(SortedAfter(segments, n)), SegmentFiles(SortedBefore(segments, n));
      Log(SegmentFiles(segments[n := file])) == Log(older) + file + Log(newer)
  {
    hide SegmentFiles, Log;
    var more := segments[n := file];
    var newer, older := SortedAfter(segments, n), SortedBefore(segments, n);
    forall m | m in segments ensures Older(n, m) || Older(m, n) {}
    assert NewerThanAll(n, older.Keys);
    NewestSegmentFirst(older, n, file);
    SplitAround(more, n, newer, older[n := file]);
    LogAppend(SegmentFiles(newer), SegmentFiles(older[n := file]));
    LogCons(file, SegmentFiles(older));
  }

  lemma CommonEnds(before: Bytes, middle: Bytes, other: Bytes, after: Bytes)
    ensures before + middle + after == before + other + after <==> middle == other
  {
    if before + middle + after == before + other + after {
      var all, same := before + middle + after, before + other + after;
      assert |middle| == |other|;
      assert middle == all[|before|..|before| + |middle|];
      assert other == same[|before|..|before| + |other|];
    }
  }

  /** Exactly when a rotation under an arbitrary free name still extends the log: the
      rotated file commutes with the segments that its name sorts before, which it then
      precedes.  Otherwise nothing is lost, but the reader is handed the records in
      another order. */
  lemma RotationExtendsIffItCommutes(f: Family, record: Bytes, rotateBytes: nat, n: Name)
    requires MustRotate(f, record, rotateBytes) && n !in f.segments
    ensures
      var newer := Log(SegmentFiles(SortedAfter(f.segments, n)));
      (Log(Files(Appended(f, record, rotateBytes, n))) == Log(Files(f)) + Encode(record)) <==>
      (f.active.value + newer == newer + f.active.value)
  {
    hide SegmentFiles, Log, SortedAfter, SortedBefore;
    var file := f.active.value;
    var newer, older := SegmentFiles(SortedAfter(f.segments, n)), SegmentFiles(SortedBefore(f.segments, n));
    SegmentAmongOthers(f.segments, n, file);
    NameSplitsSegments(f.segments, n);
    LogAppend(newer, older);
    LogCons(Encode(record), SegmentFiles(f.segments[n := file]));
    LogCons(file, SegmentFiles(f.segments));
    assert Log(older) + file + Log(newer) == Log(older) + (file + Log(newer));
    assert Log(older) + Log(newer) + file == Log(older) + (Log(newer) + file);
    CommonEnds(Log(older), file + Log(newer), Log(newer) + file, Encode(record));
  }

  /** A witness that the order can be lost: the segment of record 2 is named before that
      of record 1. */
  lemma OutOfOrderNamesReorder()
    ensures var f := Family(Some(Encode([2])), map[Name(2, 0) := Encode([1])]);
            && WellFormed(f) && MustRotate(f, [3], 1) && Name(1, 0) !in f.segments
            && Log(Files(Appended(f, [3], 1, Name(1, 0)))) != Log(Files(f)) + Encode([3])
  {
    var f := Family(Some(Encode([2])), map[Name(2, 0) := Encode([1])]);
    var none: map<Name, Bytes> := map[];
    RotationExtendsIffItCommutes(f, [3], 1, Name(1, 0));
    assert SortedAfter(f.segments, Name(1, 0)) == f.segments && none[Name(2, 0) := Encode([1])] == f.segments;
    NewestSegmentFirst(none, Name(2, 0), Encode([1]));
    assert SegmentFiles(none) == [];
    assert SegmentFiles(f.segments) == [Encode([1])];
    LogCons(Encode([1]), []);
    assert [Encode([1])] + [] == [Encode([1])] && Log(SegmentFiles(f.segments)) == Encode([1]);
    assert (Encode([2]) + Encode([1]))[0] == 2 && (Encode([1]) + Encode([2]))[0] == 1;
  }

  // ---- The appender ------------------------------------------------------------------------

  class JsonlFamily {
    var active: Option<Bytes>
    var segments: map<Name, Bytes>

    constructor ()
      ensures Value() == Family(None, map[])
    {
      active, segments := None, map[];
    }

    function Value(): Family
      reads this
    {
      Family(active, segments)
    }

    /** Bump the collision counter past every segment of this stem. */
    method FreeName(stem: nat) returns (n: Name)
      ensures n.stem == stem && n !in segments
      ensures FirstFree(segments.Keys, n)
    {
      var collision := 0;
      ghost var seen: set<Name> := {};
      while Name(stem, collision) in segments
        invariant forall c :: 0 <= c < collision ==> Name(stem, c) in segments
        invariant seen <= segments.Keys && |seen| == collision
        invariant forall x :: x in seen ==> x.collision < collision
        decreases |segments.Keys - seen|
      {
        seen := seen + {Name(stem, collision)};
        collision := collision + 1;
      }
      return Name(stem, collision);
    }

    /** `append_jsonl_durable`: under the lock, rotate if the record would cross the
        boundary, then append.  No segment is ever overwritten. */
    method Append(record: Bytes, rotateBytes: int, stem: nat) returns (ok: bool, rotated: Option<Name>)
      modifies this
      ensures ok <==> rotateBytes > 0
      ensures !ok ==> Value() == old(Value())
      ensures ok && rotated.None? ==>
                && !MustRotate(old(Value()), record, rotateBytes)
                && Value() == Appended(old(Value()), record, rotateBytes, Name(stem, 0))
      ensures ok && rotated.Some? ==>
                && MustRotate(old(Value()), record, rotateBytes)
                && rotated.value.stem == stem && FirstFree(old(segments).Keys, rotated.value)
                && Value() == Appended(old(Value()), record, rotateBytes, rotated.value)
      ensures forall n :: n in old(segments) ==> n in segments && segments[n] == old(segments)[n]
    {
      if rotateBytes <= 0 { return false, None; }
      rotated := None;
      var encoded := Encode(record);
      var size := if active.Some? then |active.value| else 0;
      if size > 0 && size + |encoded| > rotateBytes {
        var n := FreeName(stem);
        segments := segments[n := active.value];
        active := None;
        rotated := Some(n);
      }
      var kept: Bytes := if active.Some? then active.value else [];
      assert [] + encoded == encoded;
      active := Some(kept + encoded);
      ok := true;
    }
  }
}
