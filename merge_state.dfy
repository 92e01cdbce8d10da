/**
 * The state of the k-way heap merge of external_sorting_csv.cpp
 * (`merge_csv_files`) — one input stream per run, a heap holding at most one
 * line per stream, and the output so far — with the invariants its loops keep
 * and the lemmas that show each step keeps them.
 */
module MergeState {
  import opened StringHelper
  import opened RowOrder
  import opened RunGenerator

  /** The lines each run file gives when read to the end. */
  function LinesOf(sources: seq<string>): (r: seq<seq<string>>)
    ensures |r| == |sources|
    ensures forall i :: 0 <= i < |r| ==> r[i] == Lines(sources[i])
  {
    seq(|sources|, i requires 0 <= i < |sources| => Lines(sources[i]))
  }

  /** The lines held by the heap, in heap order. */
  function Sentences(heap: seq<HeapNode>): (r: seq<string>)
    ensures |r| == |heap|
    ensures forall j :: 0 <= j < |heap| ==> r[j] == heap[j].sentence
  {
    seq(|heap|, j requires 0 <= j < |heap| => heap[j].sentence)
  }

  /** The streams that have a node in the heap. */
  ghost function Owners(heap: seq<HeapNode>): set<int> {
    set j | 0 <= j < |heap| :: heap[j].index
  }

  /**
   * The shape of the merge state: every node carries the sort key and the index of an open
   * stream, no stream has two nodes, and a stream without a node has nothing left to read.
   */
  ghost predicate Tracks(key: seq<int>, heap: seq<HeapNode>, rest: seq<seq<string>>) {
    && (forall j :: 0 <= j < |heap| ==> 0 <= heap[j].index < |rest| && heap[j].sortKey == key)
    && (forall j, k :: 0 <= j < k < |heap| ==> heap[j].index != heap[k].index)
    && (forall s :: 0 <= s < |rest| && s !in Owners(heap) ==> rest[s] == [])
  }

  /** Every run is sorted and every row of it is well formed. */
  ghost predicate SortedSources(key: seq<int>, all: seq<seq<string>>) {
    forall s :: 0 <= s < |all| ==> SortedLines(key, all[s]) && WellFormedLines(key, all[s])
  }

  /**
   * What keeps the output sorted: the output so far is sorted, no heap line is below its last
   * line, and no stream's next line is below that stream's heap line.
   */
  ghost predicate Ordered(key: seq<int>, heap: seq<HeapNode>, rest: seq<seq<string>>, out: seq<string>) {
    && SortedLines(key, out) && WellFormedLines(key, out)
    && WellFormedLines(key, Sentences(heap))
    && SortedSources(key, rest)
    && (|out| > 0 ==> forall j :: 0 <= j < |heap| ==> !Less(key, RowOf(heap[j].sentence), RowOf(out[|out| - 1])))
    && (forall j :: 0 <= j < |heap| && 0 <= heap[j].index < |rest| && rest[heap[j].index] != [] ==>
          !Less(key, RowOf(rest[heap[j].index][0]), RowOf(heap[j].sentence)))
  }

  /** `heap.pop()` of the node at `m`. */
  function Pop(heap: seq<HeapNode>, m: nat): (r: seq<HeapNode>)
    requires m < |heap|
    ensures |r| == |heap| - 1
    ensures forall j :: 0 <= j < |r| ==> r[j] == heap[if j < m then j else j + 1]
  {
    heap[..m] + heap[m + 1..]
  }

  lemma OwnersPop(heap: seq<HeapNode>, m: nat)
    requires m < |heap|
    requires forall j, k :: 0 <= j < k < |heap| ==> heap[j].index != heap[k].index
    ensures Owners(Pop(heap, m)) == Owners(heap) - {heap[m].index}
  {
    var p := Pop(heap, m);
    forall s | s in Owners(heap) && s != heap[m].index
      ensures s in Owners(p)
    {
      var j :| 0 <= j < |heap| && heap[j].index == s;
      var i := if j < m then j else j - 1;
      assert p[i] == heap[j];
    }
    forall s | s in Owners(p)
      ensures s in Owners(heap) && s != heap[m].index
    {
      var i :| 0 <= i < |p| && p[i].index == s;
      var j := if i < m then i else i + 1;
      assert heap[j] == p[i];
    }
  }

  lemma OwnersPush(heap: seq<HeapNode>, node: HeapNode)
    ensures Owners(heap + [node]) == Owners(heap) + {node.index}
  {
    var h := heap + [node];
    forall s | s in Owners(heap)
      ensures s in Owners(h)
    {
      var j :| 0 <= j < |heap| && heap[j].index == s;
      assert h[j] == heap[j];
    }
    assert h[|heap|] == node;
  }

  /** Popping the node of an exhausted stream keeps the shape. */
  lemma TracksPop(key: seq<int>, heap: seq<HeapNode>, rest: seq<seq<string>>, m: nat)
    requires Tracks(key, heap, rest) && m < |heap|
    requires rest[heap[m].index] == []
    ensures Tracks(key, Pop(heap, m), rest)
  {
    OwnersPop(heap, m);
  }

  /** Popping a node and pushing the next line of its stream keeps the shape. */
  lemma TracksRefill(key: seq<int>, heap: seq<HeapNode>, rest: seq<seq<string>>, m: nat, index: int, line: string)
    requires Tracks(key, heap, rest) && m < |heap|
    requires index == heap[m].index && rest[index] != [] && line == rest[index][0]
    ensures Tracks(key, Pop(heap, m) + [HeapNode(line, index, key)], rest[index := rest[index][1..]])
  {
    var p := Pop(heap, m);
    var h := p + [HeapNode(line, index, key)];
    OwnersPop(heap, m);
    OwnersPush(p, HeapNode(line, index, key));
    assert Owners(h) == Owners(heap);
    forall j, k | 0 <= j < k < |h|
      ensures h[j].index != h[k].index
    {
      if k < |p| {
        assert h[j] == p[j] && h[k] == p[k];
      } else {
        assert h[j] == p[j] == heap[if j < m then j else j + 1];
      }
    }
  }

  /** Reading the next line of stream `s` moves exactly that line out of the unread lines. */
  lemma {:induction false} FlattenTakeHead(rest: seq<seq<string>>, s: nat)
    requires s < |rest| && rest[s] != []
    ensures multiset(Flatten(rest)) == multiset(Flatten(rest[s := rest[s][1..]])) + multiset{rest[s][0]}
    ensures |Flatten(rest)| == |Flatten(rest[s := rest[s][1..]])| + 1
    decreases s
  {
    var r := rest[s := rest[s][1..]];
    if s == 0 {
      assert r[1..] == rest[1..];
      assert rest[0] == [rest[0][0]] + rest[0][1..];
    } else {
      assert r[1..] == rest[1..][s - 1 := rest[s][1..]];
      FlattenTakeHead(rest[1..], s - 1);
    }
  }

  lemma SentencesPop(heap: seq<HeapNode>, m: nat)
    requires m < |heap|
    ensures multiset(Sentences(heap)) == multiset(Sentences(Pop(heap, m))) + multiset{heap[m].sentence}
  {
    var ss := Sentences(heap);
    assert Sentences(Pop(heap, m)) == ss[..m] + ss[m + 1..];
    MultisetRemoveAt(ss, m);
  }

  lemma SentencesPush(heap: seq<HeapNode>, node: HeapNode)
    ensures multiset(Sentences(heap + [node])) == multiset(Sentences(heap)) + multiset{node.sentence}
  {
    assert Sentences(heap + [node]) == Sentences(heap) + [node.sentence];
  }

  /** Moving the top line to the output keeps every line read accounted for. */
  lemma ConservePop(heap: seq<HeapNode>, m: nat, x: string, out: seq<string>, rest: seq<seq<string>>, total: multiset<string>)
    requires m < |heap| && x == heap[m].sentence
    requires multiset(out) + multiset(Sentences(heap)) + multiset(Flatten(rest)) == total
    ensures multiset(out + [x]) + multiset(Sentences(Pop(heap, m))) + multiset(Flatten(rest)) == total
  {
    SentencesPop(heap, m);
  }

  /** ... and so does reading the next line of its stream into the heap. */
  lemma ConserveRefill(key: seq<int>, heap: seq<HeapNode>, m: nat, x: string, out: seq<string>, rest: seq<seq<string>>,
                       total: multiset<string>, index: int, line: string)
    requires m < |heap| && x == heap[m].sentence
    requires 0 <= index < |rest| && rest[index] != [] && line == rest[index][0]
    requires multiset(out) + multiset(Sentences(heap)) + multiset(Flatten(rest)) == total
    ensures multiset(out + [x]) + multiset(Sentences(Pop(heap, m) + [HeapNode(line, index, key)]))
            + multiset(Flatten(rest[index := rest[index][1..]])) == total
  {
    SentencesPop(heap, m);
    SentencesPush(Pop(heap, m), HeapNode(line, index, key));
    FlattenTakeHead(rest, index);
  }

  /** A line no lower than the last output line extends the sorted output. */
  lemma SortedSnoc(key: seq<int>, out: seq<string>, x: string)
    requires SortedLines(key, out) && WellFormedLines(key, out) && WellFormed(key, RowOf(x))
    requires |out| > 0 ==> !Less(key, RowOf(x), RowOf(out[|out| - 1]))
    ensures SortedLines(key, out + [x]) && WellFormedLines(key, out + [x])
  {
    var o := out + [x];
    forall i, j | 0 <= i < j < |o|
      ensures !Less(key, RowOf(o[j]), RowOf(o[i]))
    {
      if j == |out| && i < |out| - 1 {
        NotLessTransitive(key, RowOf(x), RowOf(out[|out| - 1]), RowOf(out[i]));
      }
    }
  }

  /** Popping the top node of an exhausted stream keeps the output sorted. */
  lemma OrderedPop(key: seq<int>, heap: seq<HeapNode>, rest: seq<seq<string>>, out: seq<string>, m: nat, x: string)
    requires Ordered(key, heap, rest, out) && m < |heap| && x == heap[m].sentence
    requires forall j :: 0 <= j < |heap| ==> !Less(key, RowOf(heap[j].sentence), RowOf(heap[m].sentence))
    requires 0 <= heap[m].index < |rest| && rest[heap[m].index] == []
    requires forall j, k :: 0 <= j < k < |heap| ==> heap[j].index != heap[k].index
    ensures Ordered(key, Pop(heap, m), rest, out + [x])
  {
    assert Sentences(heap)[m] == x;
    SortedSnoc(key, out, x);
    var p := Pop(heap, m);
    assert forall j :: 0 <= j < |p| ==> p[j].sentence == Sentences(heap)[if j < m then j else j + 1];
  }

  /** The heap after the refill: well formed and never below the line just output. */
  lemma RefillAbove(key: seq<int>, heap: seq<HeapNode>, rest: seq<seq<string>>, out: seq<string>, m: nat, x: string,
                    index: int, line: string)
    requires Ordered(key, heap, rest, out) && m < |heap| && x == heap[m].sentence
    requires forall j :: 0 <= j < |heap| ==> !Less(key, RowOf(heap[j].sentence), RowOf(heap[m].sentence))
    requires index == heap[m].index && 0 <= index < |rest| && rest[index] != [] && line == rest[index][0]
    ensures WellFormedLines(key, Sentences(Pop(heap, m) + [HeapNode(line, index, key)]))
    ensures forall j :: 0 <= j < |Pop(heap, m) + [HeapNode(line, index, key)]| ==>
      !Less(key, RowOf((Pop(heap, m) + [HeapNode(line, index, key)])[j].sentence), RowOf((out + [x])[|out + [x]| - 1]))
  {
    var p := Pop(heap, m);
    assert forall j :: 0 <= j < |p| ==> p[j].sentence == Sentences(heap)[if j < m then j else j + 1];
    assert WellFormed(key, RowOf(rest[index][0]));
  }

  /** Each stream's next line after the refill is still no lower than its heap line. */
  lemma RefillNext(key: seq<int>, heap: seq<HeapNode>, rest: seq<seq<string>>, out: seq<string>, m: nat,
                   index: int, line: string)
    requires Ordered(key, heap, rest, out) && m < |heap|
    requires index == heap[m].index && 0 <= index < |rest| && rest[index] != [] && line == rest[index][0]
    requires forall j, k :: 0 <= j < k < |heap| ==> heap[j].index != heap[k].index
    ensures var h, r := Pop(heap, m) + [HeapNode(line, index, key)], rest[index := rest[index][1..]];
      forall j :: 0 <= j < |h| && 0 <= h[j].index < |r| && r[h[j].index] != [] ==>
        !Less(key, RowOf(r[h[j].index][0]), RowOf(h[j].sentence))
  {
    var p := Pop(heap, m);
    var r := rest[index := rest[index][1..]];
    var h := p + [HeapNode(line, index, key)];
    forall j | 0 <= j < |h| && 0 <= h[j].index < |r| && r[h[j].index] != []
      ensures !Less(key, RowOf(r[h[j].index][0]), RowOf(h[j].sentence))
    {
      if j == |p| {
        assert r[index] == rest[index][1..];
        assert SortedLines(key, rest[index]);
      } else {
        var i := if j < m then j else j + 1;
        assert h[j] == heap[i];
      }
    }
  }

  lemma SortedSourcesTail(key: seq<int>, rest: seq<seq<string>>, index: int)
    requires SortedSources(key, rest) && 0 <= index < |rest| && rest[index] != []
    ensures SortedSources(key, rest[index := rest[index][1..]])
  {
  }

  /** Popping the top node and pushing its stream's next line keeps the output sorted. */
  lemma OrderedRefill(key: seq<int>, heap: seq<HeapNode>, rest: seq<seq<string>>, out: seq<string>, m: nat, x: string,
                      index: int, line: string)
    requires Ordered(key, heap, rest, out) && m < |heap| && x == heap[m].sentence
    requires forall j :: 0 <= j < |heap| ==> !Less(key, RowOf(heap[j].sentence), RowOf(heap[m].sentence))
    requires index == heap[m].index && 0 <= index < |rest| && rest[index] != [] && line == rest[index][0]
    requires forall j, k :: 0 <= j < k < |heap| ==> heap[j].index != heap[k].index
    ensures Ordered(key, Pop(heap, m) + [HeapNode(line, index, key)], rest[index := rest[index][1..]], out + [x])
  {
    assert Sentences(heap)[m] == x;
    SortedSnoc(key, out, x);
    RefillAbove(key, heap, rest, out, m, x, index, line);
    RefillNext(key, heap, rest, out, m, index, line);
    SortedSourcesTail(key, rest, index);
  }

  /** After the first line of every stream is pushed, the merge state has its shape. */
  lemma InitialTracks(key: seq<int>, heap: seq<HeapNode>, input: seq<seq<string>>)
    requires |heap| == |input|
    requires forall j :: 0 <= j < |heap| ==> heap[j].index == j && heap[j].sortKey == key
    ensures Tracks(key, heap, input)
  {
    forall s | 0 <= s < |input|
      ensures s in Owners(heap)
    {
      assert heap[s].index == s;
    }
  }

  /** ... and, when every run is sorted and well formed, the order invariant. */
  lemma InitialOrdered(key: seq<int>, heap: seq<HeapNode>, input: seq<seq<string>>, all: seq<seq<string>>)
    requires |heap| == |input| == |all| && SortedSources(key, all)
    requires forall j :: 0 <= j < |heap| ==> |all[j]| > 0 && heap[j].index == j
    requires forall j :: 0 <= j < |heap| ==> heap[j].sentence == all[j][0] && input[j] == all[j][1..]
    ensures Ordered(key, heap, input, [])
  {
    forall j | 0 <= j < |heap|
      ensures WellFormed(key, RowOf(Sentences(heap)[j]))
      ensures SortedLines(key, input[j]) && WellFormedLines(key, input[j])
    {
      assert SortedLines(key, all[j]) && WellFormedLines(key, all[j]);
    }
  }

  /** With nothing left in the heap every stream is exhausted, so nothing is left unread. */
  lemma {:induction false} NothingUnread(key: seq<int>, rest: seq<seq<string>>)
    requires Tracks(key, [], rest)
    ensures Flatten(rest) == []
    decreases |rest|
  {
    if |rest| > 0 {
      assert rest[0] == [];
      NothingUnread(key, rest[1..]);
    }
  }

  /** No line read from the runs contains the line terminator. */
  lemma {:induction false} LinesOfPlain(sources: seq<string>)
    ensures forall i :: 0 <= i < |Flatten(LinesOf(sources))| ==> '\n' !in Flatten(LinesOf(sources))[i]
    decreases |sources|
  {
    if |sources| > 0 {
      assert LinesOf(sources)[1..] == LinesOf(sources[1..]);
      LinesOfPlain(sources[1..]);
    }
  }

  /** A permutation of '\n'-free lines is '\n'-free. */
  lemma PermutationPlain(out: seq<string>, lines: seq<string>)
    requires multiset(out) == multiset(lines)
    requires forall i :: 0 <= i < |lines| ==> '\n' !in lines[i]
    ensures forall i :: 0 <= i < |out| ==> '\n' !in out[i]
  {
    forall i | 0 <= i < |out|
      ensures '\n' !in out[i]
    {
      assert out[i] in multiset(lines);
      var k :| 0 <= k < |lines| && lines[k] == out[i];
    }
  }

  /** The opening loop's invariant: streams below `index` have given their first line to the heap. */
  ghost predicate Primed(key: seq<int>, all: seq<seq<string>>, input: seq<seq<string>>, heap: seq<HeapNode>, index: nat) {
    && |input| == |all| && index <= |all| && |heap| == index
    && (forall j :: 0 <= j < index ==> |all[j]| > 0 && heap[j] == HeapNode(all[j][0], j, key) && input[j] == all[j][1..])
    && (forall j :: index <= j < |all| ==> input[j] == all[j])
  }

  lemma PrimedStep(key: seq<int>, all: seq<seq<string>>, input: seq<seq<string>>, heap: seq<HeapNode>, index: nat, line: string)
    requires index < |input| && input[index] != [] && line == input[index][0]
    ensures Primed(key, all, input, heap, index) ==>
      Primed(key, all, input[index := input[index][1..]], heap + [HeapNode(line, index, key)], index + 1)
  {
  }

  /** The invariant of the merge loop, against all the runs' lines `all`. */
  ghost predicate Merging(key: seq<int>, all: seq<seq<string>>, heap: seq<HeapNode>, input: seq<seq<string>>, out: seq<string>) {
    && |input| == |all| && |heap| <= |all| && |out| + |heap| >= |all|
    && Tracks(key, heap, input)
    && multiset(out) + multiset(Sentences(heap)) + multiset(Flatten(input)) == multiset(Flatten(all))
    && (SortedSources(key, all) ==> Ordered(key, heap, input, out))
  }
}
