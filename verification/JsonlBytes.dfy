// Byte-level JSONL: Python's bytes.splitlines, the bounded reverse reader, and the
// simple log that it refines.

module JsonlBytes {

  type byte = bv8

  const LF: byte := 10
  const CR: byte := 13

  type Bytes = seq<byte>

  // ---- splitlines -----------------------------------------------------------------

  function LineEnd(data: Bytes): (e: nat)
    ensures e <= |data|
    ensures forall i :: 0 <= i < e ==> data[i] != LF && data[i] != CR
    ensures e < |data| ==> data[e] == LF || data[e] == CR
  {
    if data == [] || data[0] == LF || data[0] == CR then 0 else 1 + LineEnd(data[1..])
  }

  function BreakLength(data: Bytes, e: nat): nat
    requires e < |data|
  {
    if data[e] == CR && e + 1 < |data| && data[e + 1] == LF then 2 else 1
  }

  /** `bytes.splitlines()`: LF, CR and CR LF end a line; no empty line at the end. */
  function SplitLines(data: Bytes): seq<Bytes>
    decreases |data|
  {
    if data == [] then []
    else
      var e := LineEnd(data);
      if e == |data| then [data] else [data[..e]] + SplitLines(data[e + BreakLength(data, e)..])
  }

  // ---- Records and files that end on a record boundary ---------------------------------

  /** `json.dumps` escapes control characters, so an encoded record holds no break. */
  predicate IsLine(r: Bytes) { LF !in r && CR !in r }

  predicate AllLines(recs: seq<Bytes>) { forall i :: 0 <= i < |recs| ==> IsLine(recs[i]) }

  function Encode(r: Bytes): Bytes { r + [LF] }

  function Concat(recs: seq<Bytes>): Bytes {
    if recs == [] then [] else Encode(recs[0]) + Concat(recs[1..])
  }

  predicate OnBoundary(file: Bytes) { CR !in file && (file == [] || file[|file| - 1] == LF) }

  lemma LineEndOfEncoded(r: Bytes, rest: Bytes)
    requires IsLine(r)
    ensures LineEnd(Encode(r) + rest) == |r|
  {
    var data := Encode(r) + rest;
    var e := LineEnd(data);
    assert data[|r|] == LF;
    assert forall i :: 0 <= i < |r| ==> data[i] == r[i] && r[i] in r;
  }

  /** One encoded record in front is one more line in front. */
  lemma SplitEncoded(r: Bytes, rest: Bytes)
    requires IsLine(r)
    ensures SplitLines(Encode(r) + rest) == [r] + SplitLines(rest)
  {
    var data := Encode(r) + rest;
    LineEndOfEncoded(r, rest);
    assert data[..|r|] == r && data[|r| + 1..] == rest;
  }

  lemma LineEndBeforeBreak(r: Bytes, brk: Bytes, rest: Bytes)
    requires IsLine(r) && brk != [] && brk[0] in {LF, CR}
    ensures LineEnd(r + brk + rest) == |r|
    ensures (r + brk + rest)[..|r|] == r && (r + brk + rest)[|r| + |brk|..] == rest
  {
    var data := r + brk + rest;
    assert data[|r|] == brk[0];
    assert forall i :: 0 <= i < |r| ==> data[i] == r[i] && r[i] in r;
  }

  /** Splitting, on all bytes: LF, CR LF and a CR without an LF each end one line. */
  lemma EveryBreakEndsALine(r: Bytes, brk: Bytes, rest: Bytes)
    requires IsLine(r) && (brk == [LF] || brk == [CR, LF] || (brk == [CR] && (rest == [] || rest[0] != LF)))
    ensures SplitLines(r + brk + rest) == [r] + SplitLines(rest)
  {
    LineEndBeforeBreak(r, brk, rest);
    var data := r + brk + rest;
    assert data[|r|] == brk[0];
    assert |r| + 1 < |data| ==> data[|r| + 1] == (brk + rest)[1];
    assert BreakLength(data, |r|) == |brk|;
  }

  /** The end of the file ends the last line, unless that is empty. */
  lemma LastLine(r: Bytes)
    requires IsLine(r)
    ensures SplitLines(r) == if r == [] then [] else [r]
  {
    assert forall i :: 0 <= i < |r| ==> r[i] in r;
    assert LineEnd(r) == |r|;
  }

  lemma {:induction false} SplitConcat(recs: seq<Bytes>)
    requires AllLines(recs)
    ensures SplitLines(Concat(recs)) == recs
  {
    if recs != [] {
      SplitEncoded(recs[0], Concat(recs[1..]));
      SplitConcat(recs[1..]);
    }
  }

  lemma {:induction false} ConcatOnBoundary(recs: seq<Bytes>)
    requires AllLines(recs)
    ensures OnBoundary(Concat(recs))
  {
    if recs != [] { ConcatOnBoundary(recs[1..]); }
  }

  /** A nonempty file that ends on a boundary starts with an encoded record. */
  lemma FirstLine(file: Bytes) returns (r: Bytes, rest: Bytes)
    requires OnBoundary(file) && file != []
    ensures IsLine(r) && file == Encode(r) + rest && OnBoundary(rest)
  {
    var e := LineEnd(file);
    assert file[|file| - 1] == LF;
    assert e < |file| && file[e] in file;
    r, rest := file[..e], file[e + 1..];
    assert rest != [] ==> rest[|rest| - 1] == file[|file| - 1];
  }

  /** A file that ends on a boundary is exactly its lines, encoded. */
  lemma {:induction false} ConcatSplit(file: Bytes)
    requires OnBoundary(file)
    ensures Concat(SplitLines(file)) == file && AllLines(SplitLines(file))
    decreases |file|
  {
    if file != [] {
      var r, rest := FirstLine(file);
      SplitEncoded(r, rest);
      ConcatSplit(rest);
      assert ([r] + SplitLines(rest))[1..] == SplitLines(rest);
    }
  }

  lemma {:induction false} ConcatAppend(a: seq<Bytes>, b: seq<Bytes>)
    ensures Concat(a + b) == Concat(a) + Concat(b)
  {
    if a == [] {
      assert a + b == b;
    } else {
      assert (a + b)[1..] == a[1..] + b;
      ConcatAppend(a[1..], b);
    }
  }

  lemma SplitAppend(a: Bytes, b: Bytes)
    requires OnBoundary(a) && OnBoundary(b)
    ensures OnBoundary(a + b) && SplitLines(a + b) == SplitLines(a) + SplitLines(b)
  {
    ConcatSplit(a);
    ConcatSplit(b);
    ConcatAppend(SplitLines(a), SplitLines(b));
    SplitConcat(SplitLines(a) + SplitLines(b));
  }

  // ---- The simple log: records within the last n bytes ---------------------------------

  /** The records lying wholly inside the last `n` bytes of the encoded log. */
  function LastWithin(recs: seq<Bytes>, n: int): seq<Bytes> {
    if recs == [] || |Concat(recs)| <= n then recs else LastWithin(recs[1..], n)
  }

  /** It is the longest suffix that fits. */
  lemma {:induction false} LastWithinIsTheLongestFittingSuffix(recs: seq<Bytes>, n: nat)
    ensures exists k :: 0 <= k <= |recs| && LastWithin(recs, n) == recs[k..] && |Concat(recs[k..])| <= n
                        && (k > 0 ==> |Concat(recs[k - 1..])| > n)
  {
    if recs == [] || |Concat(recs)| <= n {
      assert recs[0..] == recs;
    } else {
      LastWithinIsTheLongestFittingSuffix(recs[1..], n);
      var k :| 0 <= k <= |recs[1..]| && LastWithin(recs[1..], n) == recs[1..][k..] && |Concat(recs[1..][k..])| <= n
               && (k > 0 ==> |Concat(recs[1..][k - 1..])| > n);
      assert recs[1..][k..] == recs[k + 1..];
      assert k > 0 ==> recs[1..][k - 1..] == recs[k..];
      assert k == 0 ==> recs[k..] == recs;
    }
  }

  function Reverse<T>(s: seq<T>): seq<T> {
    if s == [] then [] else Reverse(s[1..]) + [s[0]]
  }

  lemma {:induction false} ReverseAppend<T>(a: seq<T>, b: seq<T>)
    ensures Reverse(a + b) == Reverse(b) + Reverse(a)
  {
    if a == [] {
      assert a + b == b;
    } else {
      assert (a + b)[1..] == a[1..] + b;
      ReverseAppend(a[1..], b);
    }
  }

  // ---- The bounded reader of one file --------------------------------------------------

  /** `valid` says which lines decode to a JSON object; the others are skipped. */
  function Filter(lines: seq<Bytes>, valid: Bytes -> bool): seq<Bytes> {
    if lines == [] then []
    else (if valid(lines[0]) then [lines[0]] else []) + Filter(lines[1..], valid)
  }

  lemma {:induction false} FilterAppend(a: seq<Bytes>, b: seq<Bytes>, valid: Bytes -> bool)
    ensures Filter(a + b, valid) == Filter(a, valid) + Filter(b, valid)
  {
    if a == [] {
      assert a + b == b;
    } else {
      assert (a + b)[1..] == a[1..] + b;
      FilterAppend(a[1..], b, valid);
    }
  }

  /** The lines that survive the start boundary of a window of `n` bytes. */
  function Window(file: Bytes, n: int): seq<Bytes>
    requires n > 0
  {
    var start := if |file| > n then |file| - n else 0;
    var lines := SplitLines(file[start..]);
    if start > 0 && file[start - 1] != LF && lines != [] then lines[1..] else lines
  }

  /** Bytes before a window do not matter, beyond the one that precedes it. */
  lemma WindowInsideTail(head: Bytes, tail: Bytes, n: int)
    requires 0 < n < |tail|
    ensures Window(head + tail, n) == Window(tail, n)
  {
    var file := head + tail;
    assert file[|file| - n..] == tail[|tail| - n..];
    assert file[|file| - n - 1] == tail[|tail| - n - 1];
  }

  /** What is left of an encoded record from byte `start` on is itself one line. */
  lemma CutRecord(r: Bytes, tail: Bytes, start: nat)
    requires IsLine(r) && 0 < start <= |r|
    ensures IsLine(r[start..]) && (Encode(r) + tail)[start..] == Encode(r[start..]) + tail
    ensures (Encode(r) + tail)[start - 1] != LF
  {
    var cut := r[start..];
    assert forall i :: 0 <= i < |cut| ==> cut[i] == r[start + i] && cut[i] in r;
    assert (Encode(r) + tail)[start - 1] == r[start - 1] && r[start - 1] in r;
  }

  /** A window that starts inside or right behind a record drops what it cuts. */
  lemma WindowDropsCutRecord(r: Bytes, rest: seq<Bytes>, n: int)
    requires IsLine(r) && AllLines(rest) && n > 0
    requires |Concat(rest)| <= n < |Encode(r)| + |Concat(rest)|
    ensures Window(Encode(r) + Concat(rest), n) == rest
  {
    var tail := Concat(rest);
    var file := Encode(r) + tail;
    var start := |file| - n;
    SplitConcat(rest);
    if start == |r| + 1 {
      assert file[start..] == tail;
      assert file[start - 1] == Encode(r)[|r|] == LF;
    } else {
      CutRecord(r, tail, start);
      SplitEncoded(r[start..], tail);
    }
  }

  /** The reader's window is the simple log. */
  lemma {:induction false} WindowIsLastWithin(recs: seq<Bytes>, n: int)
    requires AllLines(recs) && n > 0
    ensures Window(Concat(recs), n) == LastWithin(recs, n)
  {
    if |Concat(recs)| <= n {
      SplitConcat(recs);
      assert Concat(recs)[0..] == Concat(recs);
    } else if n < |Concat(recs[1..])| {
      WindowInsideTail(Encode(recs[0]), Concat(recs[1..]), n);
      WindowIsLastWithin(recs[1..], n);
    } else {
      WindowDropsCutRecord(recs[0], recs[1..], n);
    }
  }

  lemma WalkStep(lines: seq<Bytes>, i: nat, valid: Bytes -> bool)
    requires i < |lines|
    ensures Reverse(Filter(lines[i..], valid)) ==
            Reverse(Filter(lines[i + 1..], valid)) + (if valid(lines[i]) then [lines[i]] else [])
  {
    assert lines[i..][0] == lines[i] && lines[i..][1..] == lines[i + 1..];
    var kept := Filter(lines[i + 1..], valid);
    assert [] + kept == kept;
    if valid(lines[i]) { assert ([lines[i]] + kept)[1..] == kept; }
  }

  /** The objects of the last `n` bytes of a file, newest first. */
  function FileReverse(file: Bytes, n: int, valid: Bytes -> bool): seq<Bytes> {
    if n > 0 then Reverse(Filter(Window(file, n), valid)) else []
  }

  method WalkBackwards(lines: seq<Bytes>, valid: Bytes -> bool) returns (out: seq<Bytes>)
    ensures out == Reverse(Filter(lines, valid))
  {
    out := [];
    var i := |lines|;
    while i > 0
      invariant 0 <= i <= |lines|
      invariant out == Reverse(Filter(lines[i..], valid))
    {
      i := i - 1;
      WalkStep(lines, i, valid);
      if valid(lines[i]) { out := out + [lines[i]]; }
    }
    assert lines[0..] == lines;
  }

  /** `iter_jsonl_reverse`: read the window, walk its lines backwards, keep objects. */
  method ReadReverse(file: Bytes, maxBytes: int, valid: Bytes -> bool) returns (out: seq<Bytes>)
    ensures out == FileReverse(file, maxBytes, valid)
  {
    hide SplitLines, Reverse, Filter;
    if maxBytes <= 0 { return []; }
    var start := if |file| - maxBytes > 0 then |file| - maxBytes else 0;
    var lines := SplitLines(file[start..]);
    if start > 0 && file[start - 1] != LF && lines != [] { lines := lines[1..]; }
    out := WalkBackwards(lines, valid);
  }
}
