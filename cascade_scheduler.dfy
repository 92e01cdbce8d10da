/**
 * The pass scheduler of external_sorting_csv.cpp (`merge_cvs_files`): while more than one run is
 * live, it cuts the live id range into groups of at most `distance + 1` consecutive ids, merges
 * each group into the next fresh id, and makes the fresh ids the live range of the next pass.
 * The survivor of the last pass is the sorted output.
 */
module CascadeScheduler {
  import opened StringHelper
  import opened RowOrder
  import opened RunGenerator
  import opened MergeState
  import opened KWayMerge

  /** One call `merge_csv_files(first, last, location)`: runs `first..last` are merged into run `location`. */
  datatype Merge = Merge(first: int, last: int, location: int)

  /**
   * The `distance` of a pass over `total` live runs. It starts at 100 and is lowered to
   * `total / time + 1` whenever `total / time` is below 100, `time` being `total / 100 + 1`.
   */
  function Distance(total: int): (r: int)
    requires total >= 1
    ensures 1 <= r <= 100
  {
    var time := total / 100 + 1;
    if total / time < 100 then total / time + 1 else 100
  }

  /** If `y` is positive and `x < (t + 1) * y`, then `x / y` is at most `t`. */
  lemma DivAtMost(x: int, y: int, t: int)
    requires y > 0 && 0 <= x < (t + 1) * y
    ensures x / y <= t
  {
    var q := x / y;
    assert x == y * q + x % y;
    if q > t {
      MulMonotone(y, t + 1, q);
      assert false;
    }
  }

  lemma MulMonotone(y: int, p: int, q: int)
    requires y >= 0 && p <= q
    ensures y * p <= y * q
  {
    assert y * q - y * p == y * (q - p);
  }

  /** The lowering always applies: `distance` is `total / (total / 100 + 1) + 1`, and so at most 100. */
  lemma DistanceClosedForm(total: int)
    requires total >= 1
    ensures Distance(total) == total / (total / 100 + 1) + 1
  {
    var time := total / 100 + 1;
    assert total == 100 * (total / 100) + total % 100;
    assert total < 100 * time;
    DivAtMost(total, time, 99);
  }

  /** The merges one pass issues: groups of `distance + 1` ids from `g` on, the last one cut at `end`, into the ids after `location`. */
  function PassMerges(g: int, end: int, location: int, distance: int): seq<Merge>
    requires distance >= 1 && g <= end + 1
    decreases end - g + 1
  {
    if g > end then []
    else
      var mid := if g + distance < end then g + distance else end;
      [Merge(g, mid, location + 1)] + PassMerges(mid + 1, end, location + 1, distance)
  }

  /** Euclidean division is determined by a quotient and a remainder within bounds. */
  lemma DivUnique(x: int, y: int, q: int, r: int)
    requires y > 0 && x == y * q + r && 0 <= r < y
    ensures x / y == q
  {
    var q' := x / y;
    assert x == y * q' + x % y;
    if q' < q {
      assert y * q - y * q' == y * (q - q');
      MulMonotone(y, 1, q - q');
    } else if q' > q {
      assert y * q' - y * q == y * (q' - q);
      MulMonotone(y, 1, q' - q);
    }
  }

  /** Adding the divisor adds one to the quotient. */
  lemma DivAddDivisor(x: int, y: int)
    requires x >= 0 && y > 0
    ensures (x + y) / y == x / y + 1
  {
    assert x == y * (x / y) + x % y;
    DivUnique(x + y, y, x / y + 1, x % y);
  }

  /** A number between 1 and `y` plus `y - 1` has quotient one by `y`. */
  lemma DivOne(n: int, y: int)
    requires 1 <= n <= y
    ensures (n + y - 1) / y == 1
  {
    DivUnique(n + y - 1, y, 1, n - 1);
  }

  /** Rounding `time * a + b` up to a multiple of `a + 2` takes at most `time` groups. */
  lemma GroupCountBound(n: int, time: int, a: int, b: int)
    requires time >= 1 && a >= 0 && 0 <= b < time && n == time * a + b
    ensures (n + a + 1) / (a + 2) <= time
  {
    assert (time + 1) * (a + 2) == time * a + 2 * time + a + 2;
    DivAtMost(n + a + 1, a + 2, time);
  }

  /** With at least two runs, `n / 100 + 1` is below `n`. */
  lemma TimeBelow(n: int)
    requires n >= 2
    ensures n / 100 + 1 < n
  {
    assert 100 * (n / 100) <= n;
  }

  /** The groups of one pass partition `g..end` in order; each has at most `distance + 1` ids and goes to the next fresh id. */
  lemma {:induction false} PassPartition(g: int, end: int, location: int, distance: int)
    requires distance >= 1 && g <= end + 1
    ensures |PassMerges(g, end, location, distance)| == 0 <==> g > end
    ensures var ms := PassMerges(g, end, location, distance);
      |ms| > 0 ==> ms[0].first == g && ms[|ms| - 1].last == end
    ensures var ms := PassMerges(g, end, location, distance);
      forall i :: 0 <= i < |ms| ==>
        && g <= ms[i].first <= ms[i].last <= ms[i].first + distance
        && ms[i].last <= end
        && ms[i].location == location + 1 + i
    ensures var ms := PassMerges(g, end, location, distance);
      forall i :: 0 <= i < |ms| - 1 ==> ms[i + 1].first == ms[i].last + 1
    decreases end - g + 1
  {
    if g <= end {
      var mid := if g + distance < end then g + distance else end;
      var rest := PassMerges(mid + 1, end, location + 1, distance);
      PassPartition(mid + 1, end, location + 1, distance);
      var ms := PassMerges(g, end, location, distance);
      assert ms == [Merge(g, mid, location + 1)] + rest;
      assert forall i :: 1 <= i < |ms| ==> ms[i] == rest[i - 1];
    }
  }

  /** A pass over `n` ids issues `(n + distance) / (distance + 1)` merges: `n` divided by the group size, rounded up. */
  lemma {:induction false} PassCount(g: int, end: int, location: int, distance: int)
    requires distance >= 1 && g <= end + 1
    ensures |PassMerges(g, end, location, distance)| == (end - g + 1 + distance) / (distance + 1)
    decreases end - g + 1
  {
    if g > end {
      DivUnique(distance, distance + 1, 0, distance);
    } else if g + distance < end {
      PassCount(g + distance + 1, end, location + 1, distance);
      DivAddDivisor(end - g, distance + 1);
    } else {
      DivOne(end - g + 1, distance + 1);
    }
  }

  /**
   * A pass over `n >= 2` live runs issues at least one and at most `n / 100 + 1` merges, so the
   * next live range is strictly smaller and the scheduler terminates.
   */
  lemma PassShrinks(start: int, end: int)
    requires start < end
    ensures var ms := PassMerges(start, end, end, Distance(end - start + 1));
      1 <= |ms| <= (end - start + 1) / 100 + 1 < end - start + 1
  {
    var n := end - start + 1;
    PassCount(start, end, end, Distance(n));
    DistanceGroups(n);
    TimeBelow(n);
  }

  /** Groups of `Distance(n) + 1` ids cover `n` ids with at most `n / 100 + 1` groups. */
  lemma DistanceGroups(n: int)
    requires n >= 1
    ensures (n + Distance(n)) / (Distance(n) + 1) <= n / 100 + 1
  {
    var time := n / 100 + 1;
    var a := n / time;
    assert n == time * a + n % time;
    DistanceClosedForm(n);
    GroupCountBound(n, time, a, n % time);
  }

  /**
   * Every merge `merge_cvs_files` issues for the live range `start..end`, pass after pass, until
   * a single id is left.
   */
  function Schedule(start: int, end: int): seq<Merge>
    requires start <= end
    decreases end - start
  {
    if start == end then []
    else
      var ms := PassMerges(start, end, end, Distance(end - start + 1));
      PassShrinks(start, end);
      ms + Schedule(end + 1, end + |ms|)
  }

  /**
   * Over the whole schedule the merges write the fresh ids `end + 1, end + 2, ...` in order, each
   * merge reads at most 101 consecutive ids, all at least `start` and below the id it writes, and
   * there is a merge to issue exactly when more than one run is live.
   */
  lemma {:induction false} ScheduleIds(start: int, end: int)
    requires start <= end
    ensures |Schedule(start, end)| == 0 <==> start == end
    ensures var ms := Schedule(start, end);
      forall i :: 0 <= i < |ms| ==> Issued(start, end, ms[i], i)
    decreases end - start
  {
    if start < end {
      var d := Distance(end - start + 1);
      var ms := PassMerges(start, end, end, d);
      PassShrinks(start, end);
      PassPartition(start, end, end, d);
      var next := end + |ms|;
      var rest := Schedule(end + 1, next);
      ScheduleIds(end + 1, next);
      var all := Schedule(start, end);
      assert all == ms + rest;
      forall i | 0 <= i < |all| ensures Issued(start, end, all[i], i) {
        if i < |ms| {
          assert all[i] == ms[i];
        } else {
          assert all[i] == rest[i - |ms|];
          assert Issued(end + 1, next, rest[i - |ms|], i - |ms|);
        }
      }
    }
  }

  /** The `i`-th merge of the schedule for `start..end` writes id `end + 1 + i` from at most 101 older ids. */
  ghost predicate Issued(start: int, end: int, m: Merge, i: int) {
    && m.location == end + 1 + i
    && start <= m.first <= m.last < m.location
    && m.last - m.first <= 100
  }

  /**
   * 100 runs already take two passes: `distance` is 51, so runs 1 to 52 and 53 to 100 are merged
   * into runs 101 and 102, which are then merged into run 103. 99 runs take a single merge.
   */
  lemma ScenarioOneHundred()
    ensures Distance(100) == 51
    ensures Schedule(1, 100) == [Merge(1, 52, 101), Merge(53, 100, 102), Merge(101, 102, 103)]
    ensures Schedule(1, 99) == [Merge(1, 99, 100)]
  {
    assert Distance(100) == 51;
    assert PassMerges(53, 100, 101, 51) == [Merge(53, 100, 102)];
    assert PassMerges(1, 100, 100, 51) == [Merge(1, 52, 101), Merge(53, 100, 102)];
    assert Distance(2) == 3;
    assert PassMerges(101, 102, 102, 3) == [Merge(101, 102, 103)];
    assert Schedule(103, 103) == [];
    assert Schedule(101, 102) == [Merge(101, 102, 103)];
    assert Distance(99) == 100;
    assert PassMerges(1, 99, 99, 100) == [Merge(1, 99, 100)];
    assert Schedule(100, 100) == [];
  }

  /**
   * 250 runs: `distance` is 84, so the first pass merges 85, 85 and 80 runs into runs 251 to 253,
   * and the second pass merges those three into run 254.
   */
  lemma ScenarioTwoHundredFifty()
    ensures Distance(250) == 84
    ensures Schedule(1, 250) == [Merge(1, 85, 251), Merge(86, 170, 252), Merge(171, 250, 253), Merge(251, 253, 254)]
  {
    assert Distance(250) == 84;
    assert PassMerges(171, 250, 252, 84) == [Merge(171, 250, 253)];
    assert PassMerges(86, 250, 251, 84) == [Merge(86, 170, 252), Merge(171, 250, 253)];
    var first := PassMerges(1, 250, 250, 84);
    assert first == [Merge(1, 85, 251), Merge(86, 170, 252), Merge(171, 250, 253)];
    assert Distance(3) == 4;
    assert PassMerges(251, 253, 253, 4) == [Merge(251, 253, 254)];
    assert Schedule(254, 254) == [];
    assert Schedule(251, 253) == [Merge(251, 253, 254)];
  }

  /** Runs `a..b` all exist among the run files. */
  ghost predicate Present(files: map<int, string>, a: int, b: int) {
    forall id :: a <= id <= b ==> id in files
  }

  /** The lines of runs `a..b`, as one multiset; a missing run contributes nothing. */
  ghost function Bag(files: map<int, string>, a: int, b: int): multiset<string>
    decreases b - a + 1
  {
    if a > b then multiset{}
    else (if a in files then multiset(Lines(files[a])) else multiset{}) + Bag(files, a + 1, b)
  }

  /** The lines of a run are sorted and well formed. */
  ghost predicate SortedRun(key: seq<int>, text: string) {
    SortedLines(key, Lines(text)) && WellFormedLines(key, Lines(text))
  }

  /** Runs `a..b` are each sorted and well formed. */
  ghost predicate SortedRuns(key: seq<int>, files: map<int, string>, a: int, b: int)
    requires Present(files, a, b)
  {
    forall id :: a <= id <= b ==> SortedRun(key, files[id])
  }

  /** The lines of `a..b` are those of `a..m` and of `m + 1..b`. */
  lemma {:induction false} BagSplit(files: map<int, string>, a: int, m: int, b: int)
    requires a - 1 <= m <= b
    ensures Bag(files, a, b) == Bag(files, a, m) + Bag(files, m + 1, b)
    decreases m - a + 1
  {
    if a <= m {
      BagSplit(files, a + 1, m, b);
      var x := if a in files then multiset(Lines(files[a])) else multiset{};
      assert Bag(files, a, b) == x + Bag(files, a + 1, b);
      assert Bag(files, a, m) == x + Bag(files, a + 1, m);
      UnionAssoc(x, Bag(files, a + 1, m), Bag(files, m + 1, b));
    } else {
      assert Bag(files, a, m) == multiset{};
    }
  }

  lemma UnionAssoc<T>(x: multiset<T>, y: multiset<T>, z: multiset<T>)
    ensures x + (y + z) == (x + y) + z
  {
  }

  /** Writing a run above `b` leaves the lines of `a..b` as they were. */
  lemma {:induction false} BagWriteAbove(files: map<int, string>, a: int, b: int, location: int, text: string)
    requires location > b
    ensures Bag(files[location := text], a, b) == Bag(files, a, b)
    decreases b - a + 1
  {
    if a <= b {
      BagWriteAbove(files, a + 1, b, location, text);
    }
  }

  /** Extending the range by one present run adds that run's lines. */
  lemma BagSnoc(files: map<int, string>, a: int, b: int)
    requires a <= b + 1 && b + 1 in files
    ensures Bag(files, a, b + 1) == Bag(files, a, b) + multiset(Lines(files[b + 1]))
  {
    BagSplit(files, a, b, b + 1);
    assert Bag(files, b + 2, b + 1) == multiset{};
  }

  /** The lines of the sources opened for runs `a..b` are the lines of those runs. */
  lemma {:induction false} BagSources(files: map<int, string>, a: int, b: int, sources: seq<string>)
    requires a <= b + 1 && Present(files, a, b)
    requires |sources| == b - a + 1 && forall i :: 0 <= i < |sources| ==> sources[i] == files[a + i]
    ensures multiset(Flatten(LinesOf(sources))) == Bag(files, a, b)
    decreases |sources|
  {
    if a <= b {
      var tail := sources[1..];
      assert forall i :: 0 <= i < |tail| ==> tail[i] == files[a + 1 + i];
      BagSources(files, a + 1, b, tail);
      BagSourcesCons(files, a, b, sources);
    } else {
      assert LinesOf(sources) == [];
    }
  }

  /** The step of `BagSources`: the first source adds the lines of run `a`. */
  lemma BagSourcesCons(files: map<int, string>, a: int, b: int, sources: seq<string>)
    requires a <= b && a in files && |sources| > 0 && sources[0] == files[a]
    requires multiset(Flatten(LinesOf(sources[1..]))) == Bag(files, a + 1, b)
    ensures multiset(Flatten(LinesOf(sources))) == Bag(files, a, b)
  {
    LinesOfTail(sources);
    var all := LinesOf(sources);
    assert Flatten(all) == all[0] + Flatten(all[1..]);
  }

  lemma LinesOfTail(sources: seq<string>)
    requires |sources| > 0
    ensures LinesOf(sources)[1..] == LinesOf(sources[1..])
  {
  }

  /** Sorted runs `a..b` open as sorted sources. */
  lemma SortedRunsSources(key: seq<int>, files: map<int, string>, a: int, b: int, sources: seq<string>)
    requires Present(files, a, b) && SortedRuns(key, files, a, b)
    requires |sources| == b - a + 1 && forall i :: 0 <= i < |sources| ==> sources[i] == files[a + i]
    ensures SortedSources(key, LinesOf(sources))
  {
    var all := LinesOf(sources);
    forall s | 0 <= s < |all| ensures SortedLines(key, all[s]) && WellFormedLines(key, all[s]) {
      assert SortedRun(key, files[a + s]);
    }
  }

  /** Every line of sources that are each well formed is well formed. */
  lemma {:induction false} FlattenWellFormed(key: seq<int>, all: seq<seq<string>>)
    requires forall s :: 0 <= s < |all| ==> WellFormedLines(key, all[s])
    ensures WellFormedLines(key, Flatten(all))
    decreases |all|
  {
    if |all| > 0 {
      FlattenWellFormed(key, all[1..]);
      var f := Flatten(all);
      assert f == all[0] + Flatten(all[1..]);
      forall i | 0 <= i < |f| ensures WellFormed(key, RowOf(f[i])) {
        if i >= |all[0]| {
          assert f[i] == Flatten(all[1..])[i - |all[0]|];
        }
      }
    }
  }

  /** Well-formedness of every line survives a permutation. */
  lemma PermutationWellFormed(key: seq<int>, out: seq<string>, lines: seq<string>)
    requires multiset(out) == multiset(lines) && WellFormedLines(key, lines)
    ensures WellFormedLines(key, out)
  {
    forall i | 0 <= i < |out| ensures WellFormed(key, RowOf(out[i])) {
      assert out[i] in multiset(lines);
      var j :| 0 <= j < |lines| && lines[j] == out[i];
    }
  }

  /**
   * `merge_csv_files(first, last, location)` at the level of run files: it opens runs
   * `first..last` in order, and the text it produces for run `location` holds exactly their
   * lines, sorted when each of them is.
   */
  method MergeRuns(files: map<int, string>, first: int, last: int, key: seq<int>) returns (output: string)
    requires first <= last && Present(files, first, last)
    ensures multiset(Lines(output)) == Bag(files, first, last)
    ensures SortedRuns(key, files, first, last) ==> SortedRun(key, output)
  {
    var sources: seq<string> := [];
    var i := 0;
    while i < last - first + 1
      invariant 0 <= i <= last - first + 1 && |sources| == i
      invariant forall j :: 0 <= j < i ==> sources[j] == files[first + j]
    {
      sources := sources + [files[first + i]];
      i := i + 1;
    }
    var out;
    out, output := MergeCsvFiles(sources, key);
    BagSources(files, first, last, sources);
    MergedRunSorted(key, files, first, last, sources, out, output);
  }

  /** The merged run of sorted runs is sorted, and its lines are well formed since theirs are. */
  lemma MergedRunSorted(key: seq<int>, files: map<int, string>, first: int, last: int, sources: seq<string>, out: seq<string>, output: string)
    requires Present(files, first, last)
    requires |sources| == last - first + 1 && forall i :: 0 <= i < |sources| ==> sources[i] == files[first + i]
    requires multiset(out) == multiset(Flatten(LinesOf(sources))) && Lines(output) == out
    requires SortedSources(key, LinesOf(sources)) ==> SortedLines(key, out)
    ensures SortedRuns(key, files, first, last) ==> SortedRun(key, output)
  {
    if SortedRuns(key, files, first, last) {
      SortedRunsSources(key, files, first, last, sources);
      var all := LinesOf(sources);
      FlattenWellFormed(key, all);
      PermutationWellFormed(key, out, Flatten(all));
    }
  }

  /** Runs `a..b` exist, hold the lines `total`, and are each sorted when `sorted` holds. */
  ghost predicate Live(key: seq<int>, files: map<int, string>, a: int, b: int, total: multiset<string>, sorted: bool) {
    && Present(files, a, b)
    && Bag(files, a, b) == total
    && (sorted ==> SortedRuns(key, files, a, b))
  }

  /**
   * One turn of the inner loop of `merge_cvs_files`: the group `start..mid`, `mid` being
   * `min(start + distance, end)`, is merged into the next fresh id `location + 1`. The live runs
   * after it are the rest of the old range followed by the fresh ones, with the same lines.
   */
  method MergeGroup(key: seq<int>, files: map<int, string>, start: int, end: int, location: int, distance: int,
                    ghost total: multiset<string>, ghost sorted: bool)
    returns (files': map<int, string>, mid: int, location': int)
    requires distance >= 1 && start <= end <= location && Live(key, files, start, location, total, sorted)
    ensures mid == (if start + distance < end then start + distance else end)
    ensures location' == location + 1
    ensures Live(key, files', mid + 1, location', total, sorted)
  {
    mid := if start + distance < end then start + distance else end;
    location' := location + 1;
    var output := MergeRuns(files, start, mid, key);
    files' := files[location' := output];
    GroupStep(key, files, start, mid, location, output, total, sorted);
  }

  /** Replacing the group `start..mid` by its merged run at the next id keeps the live lines and their order. */
  lemma GroupStep(key: seq<int>, files: map<int, string>, start: int, mid: int, location: int, output: string,
                  total: multiset<string>, sorted: bool)
    requires start <= mid <= location && Live(key, files, start, location, total, sorted)
    requires multiset(Lines(output)) == Bag(files, start, mid)
    requires SortedRuns(key, files, start, mid) ==> SortedRun(key, output)
    ensures Live(key, files[location + 1 := output], mid + 1, location + 1, total, sorted)
  {
    GroupPresent(files, start, mid, location, output);
    GroupLines(files, start, mid, location, output);
    if sorted {
      GroupSorted(key, files, start, mid, location, output);
    }
  }

  /** The runs after the group and the merged run exist. */
  lemma GroupPresent(files: map<int, string>, start: int, mid: int, location: int, output: string)
    requires start <= mid <= location && Present(files, start, location)
    ensures Present(files[location + 1 := output], mid + 1, location + 1)
  {
  }

  /** The lines of the group move to the merged run. */
  lemma GroupLines(files: map<int, string>, start: int, mid: int, location: int, output: string)
    requires start <= mid <= location && Present(files, start, location)
    requires multiset(Lines(output)) == Bag(files, start, mid)
    ensures Bag(files[location + 1 := output], mid + 1, location + 1) == Bag(files, start, location)
  {
    var files' := files[location + 1 := output];
    BagSplit(files, start, mid, location);
    BagWriteAbove(files, mid + 1, location, location + 1, output);
    BagSnoc(files', mid + 1, location);
    UnionComm(Bag(files, start, mid), Bag(files, mid + 1, location));
  }

  lemma UnionComm<T>(x: multiset<T>, y: multiset<T>)
    ensures x + y == y + x
  {
  }

  /** The runs left after the group stay sorted, and so is the merged run of the sorted group. */
  lemma GroupSorted(key: seq<int>, files: map<int, string>, start: int, mid: int, location: int, output: string)
    requires start <= mid <= location && Present(files, start, location)
    requires SortedRuns(key, files, start, location)
    requires SortedRuns(key, files, start, mid) ==> SortedRun(key, output)
    ensures SortedRuns(key, files[location + 1 := output], mid + 1, location + 1)
  {
    var files' := files[location + 1 := output];
    assert SortedRuns(key, files, start, mid);
    forall id | mid + 1 <= id <= location + 1 ensures SortedRun(key, files'[id]) {
      if id <= location {
        assert files'[id] == files[id];
      }
    }
  }

  /**
   * The inner loop of a pass over `start..end` whose merges are `target`, after the merges `pass`:
   * the groups still to issue start at `g`, and the live runs `g..location` are the unread old
   * runs followed by the fresh ones.
   */
  ghost predicate Passing(key: seq<int>, files: map<int, string>, start: int, end: int, g: int, location: int, distance: int,
                          target: seq<Merge>, pass: seq<Merge>, total: multiset<string>, sorted: bool) {
    && distance >= 1
    && start <= g <= end + 1
    && location == end + |pass|
    && pass + PassMerges(g, end, location, distance) == target
    && Live(key, files, g, location, total, sorted)
  }

  /** Issuing the group `g..mid` into `location + 1` keeps the inner-loop state. */
  lemma PassIssued(key: seq<int>, files: map<int, string>, files': map<int, string>, start: int, end: int, g: int, location: int,
                   distance: int, target: seq<Merge>, pass: seq<Merge>, total: multiset<string>, sorted: bool, mid: int)
    requires g <= end && mid == (if g + distance < end then g + distance else end)
    ensures
      && Passing(key, files, start, end, g, location, distance, target, pass, total, sorted)
      && Live(key, files', mid + 1, location + 1, total, sorted)
      ==> Passing(key, files', start, end, mid + 1, location + 1, distance, target, pass + [Merge(g, mid, location + 1)], total, sorted)
  {
    if Passing(key, files, start, end, g, location, distance, target, pass, total, sorted) {
      var rest := PassMerges(mid + 1, end, location + 1, distance);
      assert PassMerges(g, end, location, distance) == [Merge(g, mid, location + 1)] + rest;
      AppendAssoc(pass, [Merge(g, mid, location + 1)], rest);
    }
  }

  /** One turn of the inner loop of a pass: merge the group starting at `g` into a fresh run. */
  method PassStep(key: seq<int>, files: map<int, string>, start: int, end: int, g: int, location: int, distance: int,
                  ghost target: seq<Merge>, ghost pass: seq<Merge>, ghost total: multiset<string>, ghost sorted: bool)
    returns (files': map<int, string>, g': int, location': int, ghost pass': seq<Merge>)
    requires g <= end && Passing(key, files, start, end, g, location, distance, target, pass, total, sorted)
    ensures Passing(key, files', start, end, g', location', distance, target, pass', total, sorted)
    ensures g < g'
  {
    var mid;
    files', mid, location' := MergeGroup(key, files, g, end, location, distance, total, sorted);
    PassIssued(key, files, files', start, end, g, location, distance, target, pass, total, sorted, mid);
    pass' := pass + [Merge(g, mid, location')];
    g' := mid + 1;
  }

  /** The `distance` and `time` computation at the head of each pass. */
  method PassDistance(total: int) returns (distance: int)
    requires total >= 1
    ensures distance == Distance(total) && 1 <= distance <= 100
  {
    distance := 100;
    var time := total / distance + 1;
    if total / time < distance {
      distance := total / time + 1;
    }
  }

  /**
   * One pass of the outer loop of `merge_cvs_files` over the live range `start..end`: it computes
   * `distance` and issues the groups of `PassMerges`, so that the next live range is the fresh ids
   * `end + 1..end'`, holding the same lines.
   */
  method MergePass(key: seq<int>, files: map<int, string>, start: int, end: int, distance: int, ghost total: multiset<string>, ghost sorted: bool)
    returns (files': map<int, string>, end': int, ghost pass: seq<Merge>)
    requires start < end && distance >= 1 && Live(key, files, start, end, total, sorted)
    ensures pass == PassMerges(start, end, end, distance)
    ensures end' == end + |pass|
    ensures Live(key, files', end + 1, end', total, sorted)
  {
    var location := end;
    ghost var target := PassMerges(start, end, end, distance);
    var g := start;
    files' := files;
    pass := [];
    while g <= end
      invariant Passing(key, files', start, end, g, location, distance, target, pass, total, sorted)
      decreases end - g
    {
      files', g, location, pass := PassStep(key, files', start, end, g, location, distance, target, pass, total, sorted);
    }
    assert pass + [] == pass;
    end' := location;
  }

  /** A finished pass has issued exactly the first pass of the schedule. */
  lemma PassDone(start: int, end: int, distance: int, pass: seq<Merge>)
    requires start < end && distance == Distance(end - start + 1)
    requires pass == PassMerges(start, end, end, distance)
    ensures Schedule(start, end) == pass + Schedule(end + 1, end + |pass|)
  {
    ScheduleUnfold(start, end);
  }

  lemma ScheduleUnfold(start: int, end: int)
    requires start < end
    ensures var ms := PassMerges(start, end, end, Distance(end - start + 1));
      Schedule(start, end) == ms + Schedule(end + 1, end + |ms|)
  {
  }

  /**
   * The outer loop of `merge_cvs_files` after the passes that issued `merges`: the live runs are
   * `start..end`, they hold all the lines, and the rest of the schedule is the schedule of that range.
   */
  ghost predicate Cascading(key: seq<int>, files: map<int, string>, start: int, end: int, runsCount: int,
                            merges: seq<Merge>, schedule: seq<Merge>, total: multiset<string>, sorted: bool) {
    && 1 <= start <= end
    && end == runsCount + |merges|
    && merges + Schedule(start, end) == schedule
    && Live(key, files, start, end, total, sorted)
  }

  /** One pass of the outer loop: the live range moves to the fresh runs and shrinks. */
  method CascadeStep(key: seq<int>, files: map<int, string>, start: int, end: int, runsCount: int,
                     ghost merges: seq<Merge>, ghost schedule: seq<Merge>, ghost total: multiset<string>, ghost sorted: bool)
    returns (files': map<int, string>, start': int, end': int, ghost merges': seq<Merge>)
    requires start < end && Cascading(key, files, start, end, runsCount, merges, schedule, total, sorted)
    ensures Cascading(key, files', start', end', runsCount, merges', schedule, total, sorted)
    ensures end' - start' < end - start
  {
    ghost var pass;
    var distance := PassDistance(end - start + 1);
    files', end', pass := MergePass(key, files, start, end, distance, total, sorted);
    PassShrinks(start, end);
    PassDone(start, end, distance, pass);
    AppendAssoc(merges, pass, Schedule(end + 1, end'));
    merges' := merges + pass;
    start' := end + 1;
  }

  /**
   * `merge_cvs_files`: passes of group merges over the live range `1..runsCount` until one run is
   * left. The merges issued are exactly `Schedule(1, runsCount)`, the survivor is the last fresh
   * id, and its text holds the lines of all the initial runs, sorted when each of them is.
   */
  method MergeCvsFiles(runsCount: int, runs: map<int, string>, key: seq<int>)
    returns (output: string, survivor: int, ghost merges: seq<Merge>)
    requires runsCount >= 1 && Present(runs, 1, runsCount)
    ensures merges == Schedule(1, runsCount)
    ensures survivor == runsCount + |merges|
    ensures multiset(Lines(output)) == Bag(runs, 1, runsCount)
    ensures SortedRuns(key, runs, 1, runsCount) ==> SortedRun(key, output)
  {
    ghost var total := Bag(runs, 1, runsCount);
    ghost var sorted := SortedRuns(key, runs, 1, runsCount);
    ghost var schedule := Schedule(1, runsCount);
    var files := runs;
    var start := 1;
    var end := runsCount;
    merges := [];
    while start < end
      invariant Cascading(key, files, start, end, runsCount, merges, schedule, total, sorted)
      decreases end - start
    {
      files, start, end, merges := CascadeStep(key, files, start, end, runsCount, merges, schedule, total, sorted);
    }
    output := files[start];
    survivor := start;
    assert Bag(files, start, start) == multiset(Lines(files[start])) + Bag(files, start + 1, start);
    assert merges + [] == merges;
  }
}
