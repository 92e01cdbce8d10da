/**
 * The run generator of external_sorting_csv.cpp (`input_cvs_file`): it cuts the
 * input lines into chunks bounded by a byte budget, sorts each chunk with the
 * comparator and writes it as run 1, 2, ... in input order.
 */
module RunGenerator {
  import opened StringHelper
  import opened CsvHelper
  import opened RowOrder

  /** The lines a `while (!in.eof()) { getline(in, line); ... }` loop reads: exactly the text split on '\n'. */
  function Lines(text: string): (r: seq<string>)
    ensures |r| >= 1
    ensures forall i :: 0 <= i < |r| ==> '\n' !in r[i]
  {
    var segs := SplitTokens(text, "\n");
    TokensAvoidChar(text, '\n');
    segs
  }

  /** Later lines never have a row less than an earlier line's row. */
  ghost predicate SortedLines(key: seq<int>, ls: seq<string>) {
    forall i, j :: 0 <= i < j < |ls| ==> !Less(key, RowOf(ls[j]), RowOf(ls[i]))
  }

  ghost predicate WellFormedLines(key: seq<int>, ls: seq<string>) {
    forall i :: 0 <= i < |ls| ==> WellFormed(key, RowOf(ls[i]))
  }

  function Flatten(chunks: seq<seq<string>>): seq<string>
    decreases |chunks|
  {
    if |chunks| == 0 then [] else chunks[0] + Flatten(chunks[1..])
  }

  lemma {:induction false} FlattenSnoc(chunks: seq<seq<string>>, c: seq<string>)
    ensures Flatten(chunks + [c]) == Flatten(chunks) + c
    decreases |chunks|
  {
    if |chunks| == 0 {
      assert (chunks + [c])[1..] == [];
    } else {
      assert (chunks + [c])[1..] == chunks[1..] + [c];
      FlattenSnoc(chunks[1..], c);
    }
  }

  /** Bytes a buffered line costs: its length plus one. */
  function SumBytes(c: seq<string>): nat
    decreases |c|
  {
    if |c| == 0 then 0 else |c[0]| + 1 + SumBytes(c[1..])
  }

  lemma {:induction false} SumBytesSnoc(c: seq<string>, line: string)
    ensures SumBytes(c + [line]) == SumBytes(c) + |line| + 1
    decreases |c|
  {
    if |c| == 0 {
      assert (c + [line])[1..] == [];
    } else {
      assert (c + [line])[1..] == c[1..] + [line];
      SumBytesSnoc(c[1..], line);
    }
  }

  /**
   * `total_mem_so_far` after buffering the lines `c` of a chunk: every line counts its length plus one,
   * except the first line of a chunk other than the first, which counts only its length.
   */
  function Counter(first: bool, c: seq<string>): nat {
    if |c| == 0 then 0 else if first then SumBytes(c) else |c[0]| + SumBytes(c[1..])
  }

  /** Each line of the chunk (after an overflowing first line) was admitted because `counter + len < budget`. */
  ghost predicate Admitted(first: bool, c: seq<string>, budget: nat) {
    forall j :: (if first then 0 else 1) <= j < |c| ==> Counter(first, c[..j]) + |c[j]| < budget
  }

  /** The chunks are non-empty, admitted line by line, and each chunk ends because the next line did not fit. */
  ghost predicate GreedyChunks(chunks: seq<seq<string>>, budget: nat) {
    && (forall k :: 0 <= k < |chunks| ==> |chunks[k]| > 0 && Admitted(k == 0, chunks[k], budget))
    && (forall k :: 0 <= k < |chunks| - 1 ==> Counter(k == 0, chunks[k]) + |chunks[k + 1][0]| >= budget)
  }

  lemma CounterSnoc(first: bool, c: seq<string>, line: string)
    requires first || |c| > 0
    ensures Counter(first, c + [line]) == Counter(first, c) + |line| + 1
  {
    SumBytesSnoc(c, line);
    if |c| > 0 {
      assert (c + [line])[1..] == c[1..] + [line];
      SumBytesSnoc(c[1..], line);
    } else {
      assert (c + [line])[1..] == [];
    }
  }

  lemma AdmitStep(first: bool, c: seq<string>, line: string, budget: nat)
    requires first || |c| > 0
    requires Admitted(first, c, budget) && Counter(first, c) + |line| < budget
    ensures Admitted(first, c + [line], budget)
  {
    var c' := c + [line];
    forall j | (if first then 0 else 1) <= j < |c'| ensures Counter(first, c'[..j]) + |c'[j]| < budget {
      if j < |c| {
        assert c'[..j] == c[..j];
      } else {
        assert c'[..j] == c;
      }
    }
  }

  /** A chunk of two or more lines (or the first chunk) never buffers more than the budget. */
  lemma ChunkWithinBudget(first: bool, c: seq<string>, budget: nat)
    requires |c| >= 2 || (first && |c| >= 1)
    requires Admitted(first, c, budget)
    ensures Counter(first, c) <= budget
  {
    var j := |c| - 1;
    assert c == c[..j] + [c[j]];
    CounterSnoc(first, c[..j], c[j]);
  }

  lemma GreedyExtend(chunks: seq<seq<string>>, c: seq<string>, budget: nat)
    requires GreedyChunks(chunks, budget)
    requires |c| > 0 && Admitted(|chunks| == 0, c, budget)
    requires |chunks| > 0 ==> Counter(|chunks| == 1, chunks[|chunks| - 1]) + |c[0]| >= budget
    ensures GreedyChunks(chunks + [c], budget)
  {
  }

  /** The text of a generated run: rows joined by ',' and separated by '\n', with no final '\n'. */
  function RunText(rows: seq<Row>): string {
    Joined(JoinRows(rows), "\n")
  }

  lemma {:induction false} JoinRowsAt(rows: seq<Row>, i: nat)
    requires i < |rows|
    ensures JoinRows(rows)[i] == Joined(rows[i], ",")
    decreases |rows|
  {
    if i > 0 {
      JoinRowsAt(rows[1..], i - 1);
    }
  }

  lemma {:induction false} JoinRowsConcat(a: seq<Row>, b: seq<Row>)
    ensures JoinRows(a + b) == JoinRows(a) + JoinRows(b)
    decreases |a|
  {
    if |a| == 0 {
      assert a + b == b;
    } else {
      assert (a + b)[1..] == a[1..] + b;
      JoinRowsConcat(a[1..], b);
    }
  }

  /** Joining rows respects permutation: the multiset of joined lines depends only on the multiset of rows. */
  lemma {:induction false} JoinRowsPermutation(a: seq<Row>, b: seq<Row>)
    requires multiset(a) == multiset(b)
    ensures multiset(JoinRows(a)) == multiset(JoinRows(b))
    decreases |a|
  {
    if |a| == 0 {
      assert |b| == |multiset(b)| == 0;
    } else {
      var x := a[0];
      var k := MemberIndex(b, x);
      var b' := b[..k] + b[k + 1..];
      MultisetTail(a, b, k);
      JoinRowsPermutation(a[1..], b');
      JoinRowsRemoveAt(b, k);
      JoinRowsHead(a);
    }
  }

  /** Removing the head of `a` and a matching element of `b` keeps the multisets equal. */
  lemma MultisetTail<T>(a: seq<T>, b: seq<T>, k: nat)
    requires |a| > 0 && k < |b| && b[k] == a[0] && multiset(a) == multiset(b)
    ensures multiset(a[1..]) == multiset(b[..k] + b[k + 1..])
  {
    MultisetRemoveAt(b, k);
    assert a == [a[0]] + a[1..];
    assert multiset(a) == multiset{a[0]} + multiset(a[1..]);
    assert multiset(a[1..]) == multiset(a) - multiset{a[0]};
  }

  lemma JoinRowsHead(a: seq<Row>)
    requires |a| > 0
    ensures multiset(JoinRows(a)) == multiset{Joined(a[0], ",")} + multiset(JoinRows(a[1..]))
  {
    assert JoinRows(a) == [Joined(a[0], ",")] + JoinRows(a[1..]);
  }

  lemma MemberIndex<T>(b: seq<T>, x: T) returns (k: nat)
    requires x in multiset(b)
    ensures k < |b| && b[k] == x
  {
    assert x in b;
    k :| k < |b| && b[k] == x;
  }

  lemma MultisetRemoveAt<T>(b: seq<T>, k: nat)
    requires k < |b|
    ensures multiset(b) == multiset(b[..k] + b[k + 1..]) + multiset{b[k]}
  {
    assert b == b[..k] + [b[k]] + b[k + 1..];
  }

  lemma JoinRowsRemoveAt(b: seq<Row>, k: nat)
    requires k < |b|
    ensures multiset(JoinRows(b)) == multiset(JoinRows(b[..k] + b[k + 1..])) + multiset{Joined(b[k], ",")}
  {
    var l, m, r := JoinRows(b[..k]), Joined(b[k], ","), JoinRows(b[k + 1..]);
    JoinRowsAround(b, k);
    JoinRowsConcat(b[..k], b[k + 1..]);
    assert multiset(l + [m] + r) == multiset(l) + multiset{m} + multiset(r);
  }

  lemma JoinRowsAround(b: seq<Row>, k: nat)
    requires k < |b|
    ensures JoinRows(b) == JoinRows(b[..k]) + [Joined(b[k], ",")] + JoinRows(b[k + 1..])
  {
    var tail := b[k..];
    assert b == b[..k] + tail;
    JoinRowsConcat(b[..k], tail);
    assert tail[1..] == b[k + 1..];
    assert JoinRows(tail) == [Joined(b[k], ",")] + JoinRows(b[k + 1..]);
  }


  /** Joining the rows parsed from lines gives the lines back. */
  lemma {:induction false} JoinParsedLines(lines: seq<string>)
    ensures JoinRows(ParseLines(lines)) == lines
    decreases |lines|
  {
    if |lines| > 0 {
      JoinSplit(lines[0], ",");
      JoinParsedLines(lines[1..]);
    }
  }

  /** Re-reading a generated run yields exactly its joined rows: the missing final '\n' adds no empty line. */
  lemma RunTextLines(rows: seq<Row>)
    requires |rows| > 0 && PlainFields(rows)
    ensures Lines(RunText(rows)) == JoinRows(rows)
  {
    forall i | 0 <= i < |JoinRows(rows)| ensures '\n' !in JoinRows(rows)[i] {
      JoinRowsAt(rows, i);
      NoCharInJoined(rows[i], ",", '\n');
    }
    SplitJoin(JoinRows(rows), '\n');
  }

  lemma {:induction false} RunTextFormat(rows: seq<Row>)
    requires |rows| > 0
    ensures CsvText(rows[..|rows| - 1]) + Joined(rows[|rows| - 1], ",") == RunText(rows)
    decreases |rows|
  {
    if |rows| == 1 {
      assert rows[..0] == [];
    } else {
      var n := |rows|;
      assert rows[..n - 1][1..] == rows[1..][..n - 2];
      assert rows[1..][n - 2] == rows[n - 1];
      assert JoinRows(rows)[1..] == JoinRows(rows[1..]);
      RunTextFormat(rows[1..]);
    }
  }

  /** Writing one run as the source does: every row but the last followed by '\n', the last one without. */
  method WriteRun(rows: seq<Row>) returns (text: string)
    requires |rows| > 0
    ensures text == RunText(rows)
  {
    var dataSize := |rows|;
    text := "";
    var i := 0;
    while i < dataSize - 1
      invariant 0 <= i <= dataSize - 1
      invariant text == CsvText(rows[..i])
    {
      var line := Join(rows[i], ",");
      assert rows[..i + 1] == rows[..i] + [rows[i]];
      CsvTextSnoc(rows[..i], rows[i]);
      text := text + line + "\n";
      i := i + 1;
    }
    var last := Join(rows[dataSize - 1], ",");
    RunTextFormat(rows);
    text := text + last;
  }

  /** A run file holds a permutation of its chunk's lines, sorted when every row is well formed. */
  ghost predicate RunHolds(key: seq<int>, run: string, chunk: seq<string>) {
    && multiset(Lines(run)) == multiset(chunk)
    && (WellFormedLines(key, chunk) ==> SortedLines(key, Lines(run)))
  }

  /** Rows parsed from '\n'-free lines are non-empty with plain fields. */
  lemma ParsedRowsPlain(chunk: seq<string>)
    requires forall i :: 0 <= i < |chunk| ==> '\n' !in chunk[i]
    ensures PlainFields(ParseLines(chunk))
    ensures forall i :: 0 <= i < |chunk| ==> |ParseLines(chunk)[i]| >= 1
  {
    var parsed := ParseLines(chunk);
    forall i | 0 <= i < |parsed|
      ensures |parsed[i]| >= 1 && forall j :: 0 <= j < |parsed[i]| ==> ',' !in parsed[i][j] && '\n' !in parsed[i][j]
    {
      ParseLinesAt(chunk, i);
      TokensFreeOf(chunk[i], ",", '\n');
      TokensAvoidChar(chunk[i], ',');
    }
  }

  lemma PermutedRowsPlain(sorted: seq<Row>, parsed: seq<Row>)
    requires multiset(sorted) == multiset(parsed)
    requires PlainFields(parsed) && forall i :: 0 <= i < |parsed| ==> |parsed[i]| >= 1
    ensures PlainFields(sorted) && forall i :: 0 <= i < |sorted| ==> |sorted[i]| >= 1
    ensures |sorted| == |parsed|
  {
    assert |multiset(sorted)| == |multiset(parsed)|;
    forall i | 0 <= i < |sorted|
      ensures |sorted[i]| >= 1 && forall j :: 0 <= j < |sorted[i]| ==> ',' !in sorted[i][j] && '\n' !in sorted[i][j]
    {
      assert sorted[i] in multiset(parsed);
      var k :| 0 <= k < |parsed| && parsed[k] == sorted[i];
    }
  }

  /** The rows of a generated run's lines are the rows it was written from. */
  lemma RunLinesRows(sorted: seq<Row>)
    requires |sorted| > 0 && PlainFields(sorted) && forall i :: 0 <= i < |sorted| ==> |sorted[i]| >= 1
    ensures |Lines(RunText(sorted))| == |sorted|
    ensures forall i :: 0 <= i < |sorted| ==> RowOf(Lines(RunText(sorted))[i]) == sorted[i]
  {
    RunTextLines(sorted);
    forall i | 0 <= i < |sorted| ensures RowOf(JoinRows(sorted)[i]) == sorted[i] {
      JoinRowsAt(sorted, i);
      SplitJoin(sorted[i], ',');
    }
  }

  lemma ParsedWellFormed(key: seq<int>, chunk: seq<string>)
    requires WellFormedLines(key, chunk)
    ensures AllWellFormed(key, ParseLines(chunk))
  {
    forall i | 0 <= i < |chunk| ensures WellFormed(key, ParseLines(chunk)[i]) {
      ParseLinesAt(chunk, i);
    }
  }

  lemma FlushHolds(key: seq<int>, chunk: seq<string>, sorted: seq<Row>)
    requires |chunk| > 0
    requires forall i :: 0 <= i < |chunk| ==> '\n' !in chunk[i]
    requires multiset(sorted) == multiset(ParseLines(chunk))
    requires AllWellFormed(key, ParseLines(chunk)) ==> SortedRows(key, sorted)
    ensures RunHolds(key, RunText(sorted), chunk)
  {
    SortedRowsPlain(chunk, sorted);
    RunPermutation(chunk, sorted);
    if WellFormedLines(key, chunk) {
      ParsedWellFormed(key, chunk);
      RunSorted(key, sorted);
    }
  }

  /** The sorted rows of a '\n'-free chunk are as many as its lines, non-empty, with plain fields. */
  lemma SortedRowsPlain(chunk: seq<string>, sorted: seq<Row>)
    requires forall i :: 0 <= i < |chunk| ==> '\n' !in chunk[i]
    requires multiset(sorted) == multiset(ParseLines(chunk))
    ensures PlainFields(sorted) && (forall i :: 0 <= i < |sorted| ==> |sorted[i]| >= 1) && |sorted| == |chunk|
  {
    ParsedRowsPlain(chunk);
    PermutedRowsPlain(sorted, ParseLines(chunk));
  }

  /** Re-reading the run gives the chunk's lines, in some order. */
  lemma RunPermutation(chunk: seq<string>, sorted: seq<Row>)
    requires |chunk| > 0 && multiset(sorted) == multiset(ParseLines(chunk))
    requires PlainFields(sorted) && |sorted| == |chunk|
    ensures multiset(Lines(RunText(sorted))) == multiset(chunk)
  {
    RunTextLines(sorted);
    JoinRowsPermutation(sorted, ParseLines(chunk));
    JoinParsedLines(chunk);
  }

  /** Re-reading a run written from sorted rows gives lines in sorted order. */
  lemma RunSorted(key: seq<int>, sorted: seq<Row>)
    requires |sorted| > 0 && PlainFields(sorted) && forall i :: 0 <= i < |sorted| ==> |sorted[i]| >= 1
    requires SortedRows(key, sorted)
    ensures SortedLines(key, Lines(RunText(sorted)))
  {
    var ls := Lines(RunText(sorted));
    RunLinesRows(sorted);
    forall i, j | 0 <= i < j < |ls| ensures !Less(key, RowOf(ls[j]), RowOf(ls[i])) {
      assert RowOf(ls[j]) == sorted[j] && RowOf(ls[i]) == sorted[i];
    }
  }



  /**
   * The chunks the reading loop of `input_cvs_file` emits from line `i` on, with `cur` buffered and the
   * byte counter at `counter`: a line is buffered while `counter + len < budget`; otherwise the buffer is
   * flushed as one chunk (even an empty one, as the source does) and a new one starts with that line,
   * counted without its newline. At the end a non-empty buffer is the last chunk.
   */
  function ChunkRest(lines: seq<string>, i: nat, cur: seq<string>, counter: nat, budget: nat): seq<seq<string>>
    requires i <= |lines|
    decreases |lines| - i
  {
    if i == |lines| then (if |cur| > 0 then [cur] else [])
    else if counter + |lines[i]| < budget then ChunkRest(lines, i + 1, cur + [lines[i]], counter + |lines[i]| + 1, budget)
    else [cur] + ChunkRest(lines, i + 1, [lines[i]], |lines[i]|, budget)
  }

  lemma ChunkRestAdmit(lines: seq<string>, i: nat, cur: seq<string>, counter: nat, budget: nat)
    requires i < |lines| && counter + |lines[i]| < budget
    ensures ChunkRest(lines, i, cur, counter, budget) == ChunkRest(lines, i + 1, cur + [lines[i]], counter + |lines[i]| + 1, budget)
  {
  }

  lemma ChunkRestFlush(chunks: seq<seq<string>>, lines: seq<string>, i: nat, cur: seq<string>, counter: nat, budget: nat)
    requires i < |lines| && counter + |lines[i]| >= budget
    ensures chunks + ChunkRest(lines, i, cur, counter, budget) == (chunks + [cur]) + ChunkRest(lines, i + 1, [lines[i]], |lines[i]|, budget)
  {
  }

  /** The loop of `InputCsvFile` keeps `chunks + ChunkRest(...)` fixed when it admits a line. */
  lemma ChunksAdmitStep(chunks: seq<seq<string>>, lines: seq<string>, i: nat, line: string, cur: seq<string>, counter: nat, budget: nat, target: seq<seq<string>>)
    requires i < |lines| && line == lines[i] && counter + |line| < budget
    requires chunks + ChunkRest(lines, i, cur, counter, budget) == target
    ensures chunks + ChunkRest(lines, i + 1, cur + [line], counter + |line| + 1, budget) == target
  {
    ChunkRestAdmit(lines, i, cur, counter, budget);
  }

  /** ... and when it flushes the current chunk. */
  lemma ChunksFlushStep(chunks: seq<seq<string>>, lines: seq<string>, i: nat, line: string, cur: seq<string>, counter: nat, budget: nat, target: seq<seq<string>>)
    requires i < |lines| && line == lines[i] && counter + |line| >= budget
    requires chunks + ChunkRest(lines, i, cur, counter, budget) == target
    ensures (chunks + [cur]) + ChunkRest(lines, i + 1, [line], |line|, budget) == target
  {
    ChunkRestFlush(chunks, lines, i, cur, counter, budget);
  }

  /** The chunks of a whole file. */
  function Chunks(lines: seq<string>, budget: nat): seq<seq<string>> {
    ChunkRest(lines, 0, [], 0, budget)
  }

  /** The state after `i` lines: finished chunks and the buffered one, consistent with the budget rule. */
  ghost predicate ChunkState(lines: seq<string>, i: nat, chunks: seq<seq<string>>, cur: seq<string>, counter: nat, budget: nat) {
    && i <= |lines|
    && Flatten(chunks) + cur == lines[..i]
    && (i > 0 ==> |cur| > 0)
    && (i == 0 ==> chunks == [] && cur == [])
    && counter == Counter(|chunks| == 0, cur)
    && Admitted(|chunks| == 0, cur, budget)
    && GreedyChunks(chunks, budget)
    && (|chunks| > 0 && |cur| > 0 ==> Counter(|chunks| == 1, chunks[|chunks| - 1]) + |cur[0]| >= budget)
  }

  lemma ChunkStateAdmit(lines: seq<string>, i: nat, chunks: seq<seq<string>>, cur: seq<string>, counter: nat, budget: nat)
    requires i < |lines| && counter + |lines[i]| < budget
    ensures ChunkState(lines, i, chunks, cur, counter, budget) ==>
      ChunkState(lines, i + 1, chunks, cur + [lines[i]], counter + |lines[i]| + 1, budget)
  {
    if ChunkState(lines, i, chunks, cur, counter, budget) {
      assert lines[..i + 1] == lines[..i] + [lines[i]];
      AdmitStep(|chunks| == 0, cur, lines[i], budget);
      CounterSnoc(|chunks| == 0, cur, lines[i]);
    }
  }

  lemma ChunkStateFlush(lines: seq<string>, i: nat, chunks: seq<seq<string>>, cur: seq<string>, counter: nat, budget: nat)
    requires i < |lines| && counter + |lines[i]| >= budget
    requires i == 0 ==> |lines[0]| < budget
    ensures ChunkState(lines, i, chunks, cur, counter, budget) ==>
      |cur| > 0 && ChunkState(lines, i + 1, chunks + [cur], [lines[i]], |lines[i]|, budget)
  {
    if ChunkState(lines, i, chunks, cur, counter, budget) {
      assert lines[..i + 1] == lines[..i] + [lines[i]];
      GreedyExtend(chunks, cur, budget);
      FlattenSnoc(chunks, cur);
    }
  }

  lemma ChunkStateEnd(lines: seq<string>, chunks: seq<seq<string>>, cur: seq<string>, counter: nat, budget: nat)
    requires |lines| > 0
    ensures ChunkState(lines, |lines|, chunks, cur, counter, budget) ==>
      |cur| > 0 && Flatten(chunks + [cur]) == lines && GreedyChunks(chunks + [cur], budget)
  {
    if ChunkState(lines, |lines|, chunks, cur, counter, budget) {
      assert lines[..|lines|] == lines;
      GreedyExtend(chunks, cur, budget);
      FlattenSnoc(chunks, cur);
    }
  }

  /** From any consistent state, the finished chunks followed by the rest cover the lines and obey the budget rule. */
  lemma {:induction false} ChunkRestGreedy(lines: seq<string>, i: nat, chunks: seq<seq<string>>, cur: seq<string>, counter: nat, budget: nat)
    requires i <= |lines| && |lines| > 0 && |lines[0]| < budget
    ensures ChunkState(lines, i, chunks, cur, counter, budget) ==>
      && Flatten(chunks + ChunkRest(lines, i, cur, counter, budget)) == lines
      && GreedyChunks(chunks + ChunkRest(lines, i, cur, counter, budget), budget)
    decreases |lines| - i, 1
  {
    if i == |lines| {
      ChunkStateEnd(lines, chunks, cur, counter, budget);
      assert ChunkRest(lines, i, cur, counter, budget) == (if |cur| > 0 then [cur] else []);
    } else if counter + |lines[i]| < budget {
      GreedyAdmit(lines, i, chunks, cur, counter, budget);
    } else {
      GreedyFlush(lines, i, chunks, cur, counter, budget);
    }
  }

  /** The admitting step of `ChunkRestGreedy`. */
  lemma {:induction false} GreedyAdmit(lines: seq<string>, i: nat, chunks: seq<seq<string>>, cur: seq<string>, counter: nat, budget: nat)
    requires i < |lines| && counter + |lines[i]| < budget && |lines[0]| < budget
    ensures ChunkState(lines, i, chunks, cur, counter, budget) ==>
      && Flatten(chunks + ChunkRest(lines, i, cur, counter, budget)) == lines
      && GreedyChunks(chunks + ChunkRest(lines, i, cur, counter, budget), budget)
    decreases |lines| - i, 0
  {
    ChunkStateAdmit(lines, i, chunks, cur, counter, budget);
    ChunkRestAdmit(lines, i, cur, counter, budget);
    ChunkRestGreedy(lines, i + 1, chunks, cur + [lines[i]], counter + |lines[i]| + 1, budget);
  }

  /** The flushing step of `ChunkRestGreedy`. */
  lemma {:induction false} GreedyFlush(lines: seq<string>, i: nat, chunks: seq<seq<string>>, cur: seq<string>, counter: nat, budget: nat)
    requires i < |lines| && counter + |lines[i]| >= budget && |lines[0]| < budget
    ensures ChunkState(lines, i, chunks, cur, counter, budget) ==>
      && Flatten(chunks + ChunkRest(lines, i, cur, counter, budget)) == lines
      && GreedyChunks(chunks + ChunkRest(lines, i, cur, counter, budget), budget)
    decreases |lines| - i, 0
  {
    ChunkStateFlush(lines, i, chunks, cur, counter, budget);
    ChunkRestFlush(chunks, lines, i, cur, counter, budget);
    ChunkRestGreedy(lines, i + 1, chunks + [cur], [lines[i]], |lines[i]|, budget);
  }

  /**
   * The chunking that `input_cvs_file` performs covers the file's lines in order, one chunk per run, and
   * each chunk stops exactly where the next line would overflow the budget.
   */
  lemma ChunksCoverLines(lines: seq<string>, budget: nat)
    requires |lines| > 0 && |lines[0]| < budget
    ensures |Chunks(lines, budget)| >= 1
    ensures Flatten(Chunks(lines, budget)) == lines
    ensures GreedyChunks(Chunks(lines, budget), budget)
  {
    ChunkRestGreedy(lines, 0, [], [], 0, budget);
    assert [] + Chunks(lines, budget) == Chunks(lines, budget);
  }

  /** Every chunk of `ChunkRest` from a non-empty buffer, or from a buffered first line, is non-empty. */
  lemma {:induction false} ChunkRestNonEmpty(lines: seq<string>, i: nat, cur: seq<string>, counter: nat, budget: nat)
    requires i <= |lines| && (|cur| > 0 || (i < |lines| && counter + |lines[i]| < budget))
    ensures |ChunkRest(lines, i, cur, counter, budget)| >= 1
    decreases |lines| - i
  {
    if i < |lines| && counter + |lines[i]| < budget {
      ChunkRestNonEmpty(lines, i + 1, cur + [lines[i]], counter + |lines[i]| + 1, budget);
    }
  }

  /**
   * The block `input_cvs_file` runs when the buffer is full and again at the end: sort the buffered rows
   * with the comparator and write them as the next run. The new run holds a permutation of the buffered
   * lines `chunk`, sorted when their rows are well formed; the runs written before are unchanged.
   */
  method FlushRun(runs: seq<string>, ghost chunks: seq<seq<string>>, rows: seq<Row>, key: seq<int>, ghost chunk: seq<string>)
    returns (runs': seq<string>, ghost chunks': seq<seq<string>>)
    requires |runs| == |chunks| && forall k :: 0 <= k < |runs| ==> RunHolds(key, runs[k], chunks[k])
    requires |chunk| > 0 && rows == ParseLines(chunk)
    requires forall i :: 0 <= i < |chunk| ==> '\n' !in chunk[i]
    ensures |runs'| == |runs| + 1 && runs'[..|runs|] == runs && chunks' == chunks + [chunk]
    ensures forall k :: 0 <= k < |runs'| ==> RunHolds(key, runs'[k], chunks'[k])
  {
    var sorted := SortRows(rows, key);
    var run := WriteRun(sorted);
    FlushHolds(key, chunk, sorted);
    RunsSnoc(key, runs, chunks, run, chunk);
    runs' := runs + [run];
    chunks' := chunks + [chunk];
    assert runs'[..|runs|] == runs;
  }

  lemma RunsSnoc(key: seq<int>, runs: seq<string>, chunks: seq<seq<string>>, run: string, chunk: seq<string>)
    requires |runs| == |chunks|
    requires forall k :: 0 <= k < |runs| ==> RunHolds(key, runs[k], chunks[k])
    requires RunHolds(key, run, chunk)
    ensures forall k :: 0 <= k < |runs| + 1 ==> RunHolds(key, (runs + [run])[k], (chunks + [chunk])[k])
  {
  }

  /**
   * The invariant of the reading loop of `input_cvs_file` after `i` lines: the runs written so far were
   * made from `chunks` and each holds its chunk, `rows` are the buffered lines `cur` parsed, and the
   * finished chunks followed by what `ChunkRest` makes of the remaining lines are `target`.
   */
  ghost predicate Reading(lines: seq<string>, i: nat, budget: nat, key: seq<int>, target: seq<seq<string>>,
                          rows: seq<Row>, totalMemSoFar: nat, runCount: nat, runs: seq<string>,
                          chunks: seq<seq<string>>, cur: seq<string>) {
    && i <= |lines|
    && chunks + ChunkRest(lines, i, cur, totalMemSoFar, budget) == target
    && (i > 0 ==> |cur| > 0)
    && (i == 0 ==> cur == [] && totalMemSoFar == 0)
    && (forall j :: 0 <= j < |cur| ==> '\n' !in cur[j])
    && rows == ParseLines(cur)
    && |runs| == |chunks| == runCount
    && (forall k :: 0 <= k < |runs| ==> RunHolds(key, runs[k], chunks[k]))
  }

  /**
   * One turn of the reading loop of `input_cvs_file`: the line joins the buffer when
   * `totalMemSoFar + |line| < budget` (and the counter grows by `|line| + 1`); otherwise the buffer
   * is flushed as the next run and the line starts a new buffer with the counter at `|line|`.
   */
  method ReadLine(lines: seq<string>, i: nat, budget: nat, key: seq<int>, ghost target: seq<seq<string>>,
                  rows: seq<Row>, totalMemSoFar: nat, runCount: nat, runs: seq<string>,
                  ghost chunks: seq<seq<string>>, ghost cur: seq<string>)
    returns (rows': seq<Row>, totalMemSoFar': nat, runCount': nat, runs': seq<string>,
             ghost chunks': seq<seq<string>>, ghost cur': seq<string>)
    requires i < |lines| && '\n' !in lines[i] && (i == 0 ==> |lines[0]| < budget)
    requires Reading(lines, i, budget, key, target, rows, totalMemSoFar, runCount, runs, chunks, cur)
    ensures Reading(lines, i + 1, budget, key, target, rows', totalMemSoFar', runCount', runs', chunks', cur')
    ensures |runs'| >= |runs| && runs'[..|runs|] == runs
  {
    var line := lines[i];
    if totalMemSoFar + |line| < budget {
      ChunksAdmitStep(chunks, lines, i, line, cur, totalMemSoFar, budget, target);
      totalMemSoFar' := totalMemSoFar + |line| + 1;
      var row := Split(line, ",");
      rows' := rows + [row];
      ParseLinesSnoc(cur, line);
      cur' := cur + [line];
      runCount', runs', chunks' := runCount, runs, chunks;
    } else {
      runCount' := runCount + 1;
      ChunksFlushStep(chunks, lines, i, line, cur, totalMemSoFar, budget, target);
      runs', chunks' := FlushRun(runs, chunks, rows, key, cur);
      totalMemSoFar' := |line|;
      var row := Split(line, ",");
      rows' := [row];
      cur' := [line];
    }
  }

  /**
   * `input_cvs_file`: reads the lines of the file and writes the runs in order. `chunks` are the input
   * lines each run was made from: they are `Chunks(Lines(text), budget)`, so every line read lands in
   * exactly one run, in input order, cut by the budget rule; each run holds a permutation of its chunk,
   * sorted when its rows are well formed. The first line must fit the budget: otherwise the source writes
   * an empty buffer and `data_size - 1` wraps around.
   */
  method InputCsvFile(text: string, budget: nat, key: seq<int>) returns (runs: seq<string>, ghost chunks: seq<seq<string>>)
    requires |Lines(text)[0]| < budget
    ensures chunks == Chunks(Lines(text), budget)
    ensures |runs| == |chunks| >= 1
    ensures forall k :: 0 <= k < |runs| ==> RunHolds(key, runs[k], chunks[k])
  {
    var lines := Split(text, "\n");
    assert lines == Lines(text);
    var runCount := 0;
    var totalMemSoFar: nat := 0;
    var rows: seq<Row> := [];
    runs := [];
    chunks := [];
    ghost var cur: seq<string> := [];
    ghost var target := Chunks(lines, budget);
    var i := 0;
    while i < |lines|
      invariant Reading(lines, i, budget, key, target, rows, totalMemSoFar, runCount, runs, chunks, cur)
    {
      rows, totalMemSoFar, runCount, runs, chunks, cur :=
        ReadLine(lines, i, budget, key, target, rows, totalMemSoFar, runCount, runs, chunks, cur);
      i := i + 1;
    }
    if |rows| > 0 {
      runCount := runCount + 1;
      runs, chunks := FlushRun(runs, chunks, rows, key, cur);
    }
    ChunksCoverLines(lines, budget);
  }

  lemma {:induction false} ParseLinesSnoc(lines: seq<string>, line: string)
    ensures ParseLines(lines + [line]) == ParseLines(lines) + [SplitTokens(line, ",")]
    decreases |lines|
  {
    if |lines| == 0 {
      assert (lines + [line])[1..] == [];
    } else {
      assert (lines + [line])[1..] == lines[1..] + [line];
      ParseLinesSnoc(lines[1..], line);
    }
  }
}
