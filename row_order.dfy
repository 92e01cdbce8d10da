/**
 * The column-key comparator of external_sorting_csv.cpp (`comparator`), the
 * heap node whose `operator<` is built on it, and `std::sort` with that
 * comparator, modelled as some sorted permutation.
 */
module RowOrder {
  import opened StringHelper
  import opened CsvHelper

  /** `std::string` operator<: lexicographic order on characters. */
  predicate StrLess(a: string, b: string)
    decreases |a|
  {
    if |a| == 0 then |b| > 0
    else if |b| == 0 then false
    else if a[0] != b[0] then a[0] < b[0]
    else StrLess(a[1..], b[1..])
  }

  lemma {:induction false} StrLessIrreflexive(a: string)
    ensures !StrLess(a, a)
    decreases |a|
  {
    if |a| > 0 {
      StrLessIrreflexive(a[1..]);
    }
  }

  lemma {:induction false} StrLessAsymmetric(a: string, b: string)
    ensures StrLess(a, b) ==> !StrLess(b, a)
    decreases |a|
  {
    if |a| > 0 && |b| > 0 && a[0] == b[0] {
      StrLessAsymmetric(a[1..], b[1..]);
    }
  }

  lemma {:induction false} StrLessTransitive(a: string, b: string, c: string)
    requires StrLess(a, b) && StrLess(b, c)
    ensures StrLess(a, c)
    decreases |a|
  {
    if |a| > 0 && |b| > 0 && |c| > 0 && a[0] == b[0] && b[0] == c[0] {
      StrLessTransitive(a[1..], b[1..], c[1..]);
    }
  }

  /** Two different strings are ordered one way or the other. */
  lemma {:induction false} StrLessTotal(a: string, b: string)
    requires a != b
    ensures StrLess(a, b) || StrLess(b, a)
    decreases |a|
  {
    if |a| > 0 && |b| > 0 && a[0] == b[0] {
      assert a == [a[0]] + a[1..] && b == [b[0]] + b[1..];
      StrLessTotal(a[1..], b[1..]);
    }
  }

  /** Column `c` is in range of both rows and they differ there. */
  predicate Discriminates(c: int, a: Row, b: Row) {
    0 <= c < |a| && c < |b| && a[c] != b[c]
  }

  /** `comparator(sort_array, row1, row2)`: the first discriminating key column decides, by string `<`. */
  predicate Less(key: seq<int>, a: Row, b: Row)
    decreases |key|
  {
    if |key| == 0 then false
    else if Discriminates(key[0], a, b) then StrLess(a[key[0]], b[key[0]])
    else Less(key[1..], a, b)
  }

  /** `i` is the first key position whose column discriminates `a` and `b`. */
  ghost predicate FirstDiscriminating(key: seq<int>, a: Row, b: Row, i: int) {
    0 <= i < |key| && Discriminates(key[i], a, b) && forall j :: 0 <= j < i ==> !Discriminates(key[j], a, b)
  }

  /**
   * The comparator is true exactly when some key column discriminates the rows and the first such
   * column orders them by string `<`; with no discriminating column it is false.
   */
  lemma {:induction false} LessDecidedByFirstColumn(key: seq<int>, a: Row, b: Row)
    ensures Less(key, a, b) <==> exists i :: FirstDiscriminating(key, a, b, i) && StrLess(a[key[i]], b[key[i]])
    ensures (forall i :: 0 <= i < |key| ==> !Discriminates(key[i], a, b)) ==> !Less(key, a, b)
    decreases |key|
  {
    if |key| > 0 {
      LessDecidedByFirstColumn(key[1..], a, b);
      if Discriminates(key[0], a, b) {
        assert FirstDiscriminating(key, a, b, 0);
        forall i | FirstDiscriminating(key, a, b, i) ensures i == 0 {}
      } else {
        forall i | 0 <= i < |key| - 1
          ensures FirstDiscriminating(key[1..], a, b, i) <==> FirstDiscriminating(key, a, b, i + 1)
        {
          assert forall j :: 0 <= j < i ==> key[1..][j] == key[j + 1];
        }
        if Less(key, a, b) {
          var i :| FirstDiscriminating(key[1..], a, b, i) && StrLess(a[key[1..][i]], b[key[1..][i]]);
          assert FirstDiscriminating(key, a, b, i + 1);
        }
        if exists i :: FirstDiscriminating(key, a, b, i) && StrLess(a[key[i]], b[key[i]]) {
          var i :| FirstDiscriminating(key, a, b, i) && StrLess(a[key[i]], b[key[i]]);
          assert i > 0;
          assert FirstDiscriminating(key[1..], a, b, i - 1);
        }
      }
    }
  }

  /** The comparator is never true in both directions. */
  lemma {:induction false} LessAsymmetric(key: seq<int>, a: Row, b: Row)
    ensures Less(key, a, b) ==> !Less(key, b, a)
    decreases |key|
  {
    if |key| > 0 {
      if Discriminates(key[0], a, b) {
        StrLessAsymmetric(a[key[0]], b[key[0]]);
      } else {
        LessAsymmetric(key[1..], a, b);
      }
    }
  }

  lemma LessIrreflexive(key: seq<int>, a: Row)
    ensures !Less(key, a, a)
  {
    LessAsymmetric(key, a, a);
  }

  /** Every key column is in range of the row. */
  predicate WellFormed(key: seq<int>, r: Row) {
    forall i :: 0 <= i < |key| ==> 0 <= key[i] < |r|
  }

  /** On well-formed rows the comparator is transitive. */
  lemma {:induction false} LessTransitive(key: seq<int>, a: Row, b: Row, c: Row)
    requires WellFormed(key, a) && WellFormed(key, b) && WellFormed(key, c)
    requires Less(key, a, b) && Less(key, b, c)
    ensures Less(key, a, c)
    decreases |key|
  {
    var k := key[0];
    if a[k] == b[k] && b[k] == c[k] {
      LessTransitive(key[1..], a, b, c);
    } else if a[k] != b[k] && b[k] != c[k] {
      StrLessTransitive(a[k], b[k], c[k]);
      StrLessIrreflexive(a[k]);
    } else if a[k] != b[k] {
      StrLessIrreflexive(a[k]);
    } else {
      StrLessIrreflexive(a[k]);
    }
  }

  /** On well-formed rows "not less" is transitive too, so incomparability is an equivalence: a strict weak order. */
  lemma {:induction false} NotLessTransitive(key: seq<int>, a: Row, b: Row, c: Row)
    requires WellFormed(key, a) && WellFormed(key, b) && WellFormed(key, c)
    requires !Less(key, a, b) && !Less(key, b, c)
    ensures !Less(key, a, c)
    decreases |key|
  {
    if |key| > 0 {
      var k := key[0];
      var x, y, z := a[k], b[k], c[k];
      if x == y && y == z {
        NotLessTransitive(key[1..], a, b, c);
      } else if x == y {
        StrLessTotal(y, z);
        StrLessAsymmetric(z, x);
      } else if y == z {
        StrLessTotal(x, y);
        StrLessAsymmetric(z, x);
      } else {
        StrLessTotal(x, y);
        StrLessTotal(y, z);
        StrLessTransitive(z, y, x);
        StrLessAsymmetric(z, x);
        StrLessIrreflexive(x);
      }
    }
  }

  /** The key used by the program's entry point: customer id, then page id. */
  const DefaultKey: seq<int> := [2, 1]

  /** A short row (the `[""]` of an empty line) is incomparable both to `a` and to `c`, yet `a` is less than `c`. */
  lemma IncomparabilityNotTransitive()
    ensures var a, b, c := ["0", "p1", "c1"], [""], ["0", "p1", "c2"];
      !Less(DefaultKey, a, b) && !Less(DefaultKey, b, a) && !Less(DefaultKey, b, c) && !Less(DefaultKey, c, b)
      && Less(DefaultKey, a, c)
  {
    assert StrLess("c1", "c2") by {
      assert "c1"[1..] == "1" && "c2"[1..] == "2";
    }
  }

  /** With rows too short for column 2 the comparator has a cycle, so no element of {a, b, c} is minimal. */
  lemma ComparatorCycle()
    ensures var a, b, c := ["0", "a", "z"], ["9", "m"], ["0", "z", "a"];
      Less(DefaultKey, a, b) && Less(DefaultKey, b, c) && Less(DefaultKey, c, a)
  {
    assert StrLess("a", "m") && StrLess("m", "z") && StrLess("a", "z");
  }

  /** The row of a line: the line split on ','. */
  function RowOf(line: string): Row {
    SplitTokens(line, ",")
  }

  /** `HeapNode`: a line, the index of the run it came from, and the sort key. */
  datatype HeapNode = HeapNode(sentence: string, index: int, sortKey: seq<int>)

  /** `HeapNode::operator<`: compares the rows with the operands swapped, so the max-heap exposes a minimal row. */
  predicate HeapLess(lhs: HeapNode, rhs: HeapNode) {
    Less(lhs.sortKey, RowOf(rhs.sentence), RowOf(lhs.sentence))
  }

  /**
   * `priority_queue::top`: an index whose node no other node exceeds under `operator<`. When every
   * row is well formed it exists, found by one scan, and its row is minimal under the comparator.
   */
  method TopIndex(heap: seq<HeapNode>, key: seq<int>) returns (m: nat)
    requires |heap| > 0
    requires forall j :: 0 <= j < |heap| ==> heap[j].sortKey == key
    ensures m < |heap|
    ensures (forall j :: 0 <= j < |heap| ==> WellFormed(key, RowOf(heap[j].sentence))) ==>
      (forall j :: 0 <= j < |heap| ==> !HeapLess(heap[m], heap[j]))
      && (forall j :: 0 <= j < |heap| ==> !Less(key, RowOf(heap[j].sentence), RowOf(heap[m].sentence)))
  {
    ghost var wf := forall j :: 0 <= j < |heap| ==> WellFormed(key, RowOf(heap[j].sentence));
    m := 0;
    var i := 1;
    LessIrreflexive(key, RowOf(heap[0].sentence));
    while i < |heap|
      invariant 1 <= i <= |heap| && m < i
      invariant wf ==> forall j :: 0 <= j < i ==> !Less(key, RowOf(heap[j].sentence), RowOf(heap[m].sentence))
    {
      if HeapLess(heap[m], heap[i]) {
        if wf {
          forall j | 0 <= j < i
            ensures !Less(key, RowOf(heap[j].sentence), RowOf(heap[i].sentence))
          {
            if Less(key, RowOf(heap[j].sentence), RowOf(heap[i].sentence)) {
              LessTransitive(key, RowOf(heap[j].sentence), RowOf(heap[i].sentence), RowOf(heap[m].sentence));
            }
          }
          LessIrreflexive(key, RowOf(heap[i].sentence));
        }
        m := i;
      }
      i := i + 1;
    }
  }

  /** Later rows are never less than earlier ones. */
  ghost predicate SortedRows(key: seq<int>, s: seq<Row>) {
    forall i, j :: 0 <= i < j < |s| ==> !Less(key, s[j], s[i])
  }

  ghost predicate AllWellFormed(key: seq<int>, s: seq<Row>) {
    forall i :: 0 <= i < |s| ==> WellFormed(key, s[i])
  }

  /** Insert `x` before the first row it is less than. */
  function Insert(key: seq<int>, x: Row, s: seq<Row>): (r: seq<Row>)
    ensures multiset(r) == multiset(s) + multiset{x}
    ensures AllWellFormed(key, s) && WellFormed(key, x) && SortedRows(key, s) ==> SortedRows(key, r)
    decreases |s|
  {
    if |s| == 0 then [x]
    else if Less(key, x, s[0]) then
      InsertFront(key, x, s);
      [x] + s
    else
      var t := Insert(key, x, s[1..]);
      assert s == [s[0]] + s[1..];
      InsertAfter(key, x, s, t);
      [s[0]] + t
  }

  lemma InsertFront(key: seq<int>, x: Row, s: seq<Row>)
    requires |s| > 0 && Less(key, x, s[0])
    ensures AllWellFormed(key, s) && WellFormed(key, x) && SortedRows(key, s) ==> SortedRows(key, [x] + s)
  {
    if AllWellFormed(key, s) && WellFormed(key, x) && SortedRows(key, s) {
      forall j | 0 <= j < |s| ensures !Less(key, s[j], x) {
        if Less(key, s[j], x) {
          LessTransitive(key, s[j], x, s[0]);
          LessIrreflexive(key, s[0]);
        }
      }
    }
  }

  lemma InsertAfter(key: seq<int>, x: Row, s: seq<Row>, t: seq<Row>)
    requires |s| > 0 && !Less(key, x, s[0])
    requires multiset(t) == multiset(s[1..]) + multiset{x}
    requires AllWellFormed(key, s[1..]) && WellFormed(key, x) && SortedRows(key, s[1..]) ==> SortedRows(key, t)
    ensures AllWellFormed(key, s) && WellFormed(key, x) && SortedRows(key, s) ==> SortedRows(key, [s[0]] + t)
  {
    if AllWellFormed(key, s) && WellFormed(key, x) && SortedRows(key, s) {
      assert AllWellFormed(key, s[1..]) && SortedRows(key, s[1..]);
      forall j | 0 <= j < |t| ensures !Less(key, t[j], s[0]) {
        assert t[j] in multiset(t);
        if t[j] != x {
          assert t[j] in multiset(s[1..]);
          var k :| 0 <= k < |s[1..]| && s[1..][k] == t[j];
          assert s[k + 1] == t[j];
        }
      }
    }
  }

  /** `std::sort` with the comparator: a permutation of the rows, sorted when every row is well formed. */
  method SortRows(rows: seq<Row>, key: seq<int>) returns (sorted: seq<Row>)
    ensures multiset(sorted) == multiset(rows)
    ensures AllWellFormed(key, rows) ==> SortedRows(key, sorted)
  {
    sorted := [];
    var i := 0;
    while i < |rows|
      invariant 0 <= i <= |rows|
      invariant multiset(sorted) == multiset(rows[..i])
      invariant AllWellFormed(key, rows) ==> AllWellFormed(key, sorted) && SortedRows(key, sorted)
    {
      assert rows[..i + 1] == rows[..i] + [rows[i]];
      ghost var old_sorted := sorted;
      sorted := Insert(key, rows[i], sorted);
      if AllWellFormed(key, rows) {
        forall j | 0 <= j < |sorted| ensures WellFormed(key, sorted[j]) {
          assert sorted[j] in multiset(sorted);
          if sorted[j] != rows[i] {
            assert sorted[j] in multiset(old_sorted);
            var k :| 0 <= k < |old_sorted| && old_sorted[k] == sorted[j];
          }
        }
      }
      i := i + 1;
    }
    assert rows[..i] == rows;
  }
}
