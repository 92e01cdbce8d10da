/**
 * The sorting branch of `main` in external_sorting_csv.cpp: the input text is cut into sorted
 * runs by `input_cvs_file`, and `merge_cvs_files` merges them into the one output run.
 */
module ExternalSortingCsv {
  import opened RowOrder
  import opened RunGenerator
  import opened CascadeScheduler

  /** The column key `main` sorts by: the third column, then the second. */
  const MainKey: seq<int> := [2, 1]

  /** The run files `input_cvs_file` leaves behind: run `id` holds the text of the `id`-th run. */
  function RunFiles(runs: seq<string>): (files: map<int, string>)
    ensures forall id :: 1 <= id <= |runs| ==> id in files && files[id] == runs[id - 1]
    decreases |runs|
  {
    if |runs| == 0 then map[] else RunFiles(runs[..|runs| - 1])[|runs| := runs[|runs| - 1]]
  }

  /** Run file `id` exists and holds the lines of chunk `id - 1`, sorted when those are well formed. */
  ghost predicate RunFilesHold(key: seq<int>, files: map<int, string>, chunks: seq<seq<string>>) {
    forall id :: 1 <= id <= |chunks| ==> id in files && RunHolds(key, files[id], chunks[id - 1])
  }

  /** The run files `a..R` hold exactly the lines of the chunks they were made from. */
  lemma {:induction false} RunsBag(key: seq<int>, chunks: seq<seq<string>>, files: map<int, string>, a: int)
    requires 1 <= a <= |chunks| + 1
    requires RunFilesHold(key, files, chunks)
    ensures Bag(files, a, |chunks|) == multiset(Flatten(chunks[a - 1..]))
    decreases |chunks| - a + 1
  {
    if a <= |chunks| {
      RunsBag(key, chunks, files, a + 1);
      assert chunks[a - 1..][1..] == chunks[a..];
      assert RunHolds(key, files[a], chunks[a - 1]);
      assert Flatten(chunks[a - 1..]) == chunks[a - 1] + Flatten(chunks[a..]);
    } else {
      assert chunks[a - 1..] == [];
    }
  }

  /** When every line of the chunks is well formed, every run file is a sorted run. */
  lemma RunsSorted(key: seq<int>, chunks: seq<seq<string>>, files: map<int, string>)
    requires RunFilesHold(key, files, chunks)
    requires WellFormedLines(key, Flatten(chunks))
    ensures Present(files, 1, |chunks|) && SortedRuns(key, files, 1, |chunks|)
  {
    forall id | 1 <= id <= |chunks| ensures SortedRun(key, files[id]) {
      ChunkWellFormed(key, chunks, id - 1);
      ChunkRunSorted(key, files[id], chunks[id - 1]);
    }
  }

  /** Every chunk of a well-formed concatenation is well formed. */
  lemma {:induction false} ChunkWellFormed(key: seq<int>, chunks: seq<seq<string>>, k: int)
    requires 0 <= k < |chunks| && WellFormedLines(key, Flatten(chunks))
    ensures WellFormedLines(key, chunks[k])
    decreases k
  {
    ConcatWellFormed(key, chunks[0], Flatten(chunks[1..]));
    if k > 0 {
      ChunkWellFormed(key, chunks[1..], k - 1);
    }
  }

  /** Both parts of a well-formed concatenation of lines are well formed. */
  lemma ConcatWellFormed(key: seq<int>, c: seq<string>, rest: seq<string>)
    requires WellFormedLines(key, c + rest)
    ensures WellFormedLines(key, c) && WellFormedLines(key, rest)
  {
    forall i | 0 <= i < |c| ensures WellFormed(key, RowOf(c[i])) {
      assert c[i] == (c + rest)[i];
    }
    forall i | 0 <= i < |rest| ensures WellFormed(key, RowOf(rest[i])) {
      assert rest[i] == (c + rest)[|c| + i];
    }
  }

  /** The run written for a chunk of well-formed lines is a sorted run. */
  lemma ChunkRunSorted(key: seq<int>, run: string, chunk: seq<string>)
    requires RunHolds(key, run, chunk) && WellFormedLines(key, chunk)
    ensures SortedRun(key, run)
  {
    PermutationWellFormed(key, Lines(run), chunk);
  }

  /**
   * `input_cvs_file` followed by `merge_cvs_files`: the text of the output file holds exactly the
   * lines of the input text, and they are sorted whenever every input line is well formed.
   * The first line must fit the budget, since otherwise the first run written is empty.
   */
  method ExternalSort(text: string, budget: nat, key: seq<int>) returns (output: string)
    requires |Lines(text)[0]| < budget
    ensures multiset(Lines(output)) == multiset(Lines(text))
    ensures WellFormedLines(key, Lines(text)) ==> SortedLines(key, Lines(output))
  {
    var runs, chunks := InputCsvFile(text, budget, key);
    var files := RunFiles(runs);
    ChunksCoverLines(Lines(text), budget);
    GeneratedRunFiles(key, runs, chunks, files);
    RunsLive(key, text, chunks, files);
    var survivor;
    ghost var merges;
    output, survivor, merges := MergeCvsFiles(|runs|, files, key);
  }

  /** The run files the generator leaves hold its runs in order. */
  lemma GeneratedRunFiles(key: seq<int>, runs: seq<string>, chunks: seq<seq<string>>, files: map<int, string>)
    requires |runs| == |chunks|
    requires forall k :: 0 <= k < |runs| ==> RunHolds(key, runs[k], chunks[k])
    requires forall id :: 1 <= id <= |runs| ==> id in files && files[id] == runs[id - 1]
    ensures RunFilesHold(key, files, chunks)
  {
    forall id | 1 <= id <= |chunks| ensures id in files && RunHolds(key, files[id], chunks[id - 1]) {
      var k := id - 1;
      assert RunHolds(key, runs[k], chunks[k]);
      assert files[id] == runs[k];
    }
  }

  /** Run files made from chunks covering the text are live runs `1..R` holding the lines of the text. */
  lemma RunsLive(key: seq<int>, text: string, chunks: seq<seq<string>>, files: map<int, string>)
    requires Flatten(chunks) == Lines(text) && |chunks| >= 1
    requires RunFilesHold(key, files, chunks)
    ensures Present(files, 1, |chunks|) && Bag(files, 1, |chunks|) == multiset(Lines(text))
    ensures WellFormedLines(key, Lines(text)) ==> SortedRuns(key, files, 1, |chunks|)
  {
    assert chunks[0..] == chunks;
    RunsBag(key, chunks, files, 1);
    if WellFormedLines(key, Lines(text)) {
      RunsSorted(key, chunks, files);
    }
  }
}
