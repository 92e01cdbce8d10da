/**
 * The k-way heap merge of external_sorting_csv.cpp (`merge_csv_files`): it
 * opens one stream per run, primes the heap with the first line of each, then
 * moves a minimal line to the output and refills from the same stream until
 * the heap is empty.
 */
module KWayMerge {
  import opened StringHelper
  import opened RowOrder
  import opened RunGenerator
  import opened MergeState

  /**
   * The opening loop of `merge_csv_files`: every stream of a freshly opened run is not at its end,
   * so the first line of each run is read and pushed with the index of its stream.
   */
  method OpenRuns(sources: seq<string>, key: seq<int>) returns (input: seq<seq<string>>, heap: seq<HeapNode>)
    ensures |input| == |heap| == |sources|
    ensures forall j :: 0 <= j < |sources| ==> heap[j] == HeapNode(Lines(sources[j])[0], j, key)
    ensures forall j :: 0 <= j < |sources| ==> input[j] == Lines(sources[j])[1..]
    ensures multiset(Sentences(heap)) + multiset(Flatten(input)) == multiset(Flatten(LinesOf(sources)))
  {
    input := LinesOf(sources);
    ghost var all := input;
    heap := [];
    var index := 0;
    while index < |input|
      invariant Primed(key, all, input, heap, index)
      invariant multiset(Sentences(heap)) + multiset(Flatten(input)) == multiset(Flatten(all))
    {
      if input[index] != [] {
        var line := input[index][0];
        FlattenTakeHead(input, index);
        SentencesPush(heap, HeapNode(line, index, key));
        PrimedStep(key, all, input, heap, index, line);
        input := input[index := input[index][1..]];
        heap := heap + [HeapNode(line, index, key)];
      }
      index := index + 1;
    }
  }

  /**
   * One turn of the merge loop: pop a minimal node, write its line, and when its stream is not at
   * its end read the stream's next line and push it. The output grows by exactly the popped line
   * and the loop invariant is kept, while fewer lines are left to read or fewer nodes are in the heap.
   */
  method MergeStep(key: seq<int>, ghost all: seq<seq<string>>, heap: seq<HeapNode>, input: seq<seq<string>>, out: seq<string>)
    returns (heap': seq<HeapNode>, input': seq<seq<string>>, out': seq<string>)
    requires |heap| > 0 && Merging(key, all, heap, input, out)
    ensures Merging(key, all, heap', input', out')
    ensures |out'| == |out| + 1 && out'[..|out|] == out
    ensures |Flatten(input')| < |Flatten(input)| || (|Flatten(input')| == |Flatten(input)| && |heap'| < |heap|)
  {
    ghost var sorted := SortedSources(key, all);
    ghost var total := multiset(Flatten(all));
    var m := TopIndex(heap, key);
    var line := heap[m].sentence;
    var index := heap[m].index;
    if input[index] != [] {
      var next := input[index][0];
      TracksRefill(key, heap, input, m, index, next);
      ConserveRefill(key, heap, m, line, out, input, total, index, next);
      if sorted {
        OrderedRefill(key, heap, input, out, m, line, index, next);
      }
      FlattenTakeHead(input, index);
      heap' := Pop(heap, m) + [HeapNode(next, index, key)];
      out' := out + [line];
      input' := input[index := input[index][1..]];
    } else {
      TracksPop(key, heap, input, m);
      ConservePop(heap, m, line, out, input, total);
      if sorted {
        OrderedPop(key, heap, input, out, m, line);
      }
      heap' := Pop(heap, m);
      out' := out + [line];
      input' := input;
    }
  }

  /**
   * `merge_csv_files`: opens the runs, then runs the merge loop until the heap is empty. The lines
   * written are a permutation of all the runs' lines, sorted when the runs are sorted and well
   * formed; the heap never holds more nodes than there are runs. `output` is the text of the
   * merged run, read back as exactly those lines. The writer is corrected here: line 267 of
   * external_sorting_csv.cpp follows every line with `endl`, which is `TerminatedText` below and
   * reads back with one extra empty line (`TerminatedTextLines`).
   */
  method MergeCsvFiles(sources: seq<string>, key: seq<int>) returns (out: seq<string>, output: string)
    requires |sources| >= 1
    ensures multiset(out) == multiset(Flatten(LinesOf(sources)))
    ensures SortedSources(key, LinesOf(sources)) ==> SortedLines(key, out)
    ensures output == Joined(out, "\n") && Lines(output) == out
  {
    ghost var all := LinesOf(sources);
    var input, heap := OpenRuns(sources, key);
    InitialTracks(key, heap, input);
    if SortedSources(key, all) {
      InitialOrdered(key, heap, input, all);
    }
    out := [];
    while |heap| > 0
      invariant Merging(key, all, heap, input, out)
      decreases |Flatten(input)|, |heap|
    {
      heap, input, out := MergeStep(key, all, heap, input, out);
    }
    NothingUnread(key, input);
    LinesOfPlain(sources);
    PermutationPlain(out, Flatten(all));
    output := Join(out, "\n");
    SplitJoin(out, '\n');
  }

  /**
   * The text `merge_csv_files` writes as the source has it: every line popped from the heap is
   * followed by a line terminator, the last one included.
   */
  function TerminatedText(out: seq<string>): string
    decreases |out|
  {
    if |out| == 0 then "" else out[0] + "\n" + TerminatedText(out[1..])
  }

  /**
   * Read back by the `eof`/`getline` loop of a later merge pass, a terminated merged run yields
   * its lines and then one extra empty line, which that pass merges as a row of its own.
   */
  lemma {:induction false} TerminatedTextLines(out: seq<string>)
    requires forall i :: 0 <= i < |out| ==> '\n' !in out[i]
    ensures Lines(TerminatedText(out)) == out + [""]
    decreases |out|
  {
    if |out| == 0 {
      SplitNoDelimiter("", '\n');
    } else {
      SplitCons(out[0], '\n', TerminatedText(out[1..]));
      TerminatedTextLines(out[1..]);
      assert out == [out[0]] + out[1..];
    }
  }

  /** The terminated text is the corrected text with one more terminator after it. */
  lemma {:induction false} TerminatedIsJoinedPlusNewline(out: seq<string>)
    requires |out| >= 1
    ensures TerminatedText(out) == Joined(out, "\n") + "\n"
    decreases |out|
  {
    if |out| > 1 {
      TerminatedIsJoinedPlusNewline(out[1..]);
    }
  }
}
