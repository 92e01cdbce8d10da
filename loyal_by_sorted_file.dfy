/**
 * get_loyal_customers_using_sorted_file.cpp: each day's log is first sorted by customer and page
 * (`sort_log_file`), then merged against the day-0 file, which holds the rows of the customers
 * not yet found loyal (`find_loyal_customers`). The rows left over become the next day-0 file.
 */
module LoyalBySortedFile {
  import opened Wrappers
  import opened StringHelper
  import opened CsvHelper
  import opened RowOrder
  import opened RunGenerator
  import opened KWayMerge
  import opened LoyalBySet

  /**
   * The lines a loop `getline(in, line); while (!in.eof()) { ...; getline(in, line); }` processes:
   * every '\n'-separated segment but the last, since the read of the last one sets `eof`.
   */
  function EofLines(text: string): (r: seq<string>)
    ensures forall i :: 0 <= i < |r| ==> '\n' !in r[i]
  {
    var segs := Lines(text);
    segs[..|segs| - 1]
  }

  /** A text that `write_cvs` wrote is read back the same by both loop shapes. */
  lemma CsvEofLines(rows: seq<Row>)
    requires PlainFields(rows)
    ensures EofLines(CsvText(rows)) == JoinRows(rows) == GetlineLines(CsvText(rows))
  {
    CsvTextSegments(rows);
  }

  /** A file whose every line was written followed by `endl` is read back as exactly those lines. */
  lemma TerminatedEofLines(out: seq<string>)
    requires forall i :: 0 <= i < |out| ==> '\n' !in out[i]
    ensures EofLines(TerminatedText(out)) == out == GetlineLines(TerminatedText(out))
  {
    TerminatedTextLines(out);
    assert (out + [""])[..|out|] == out;
  }

  /**
   * `sort_log_file`: the rows `read_cvs` returns, sorted with the column comparator, are written
   * to the file named with the suffix "_sorted". The sorted file holds the lines of the log, in
   * sorted order when every row is well formed.
   */
  method SortLogFile(fileName: string, text: string, key: seq<int>) returns (sortedName: string, sortedText: string)
    ensures sortedName == GetNewFileName(fileName, "_sorted")
    ensures multiset(EofLines(sortedText)) == multiset(GetlineLines(text))
    ensures GetlineLines(sortedText) == EofLines(sortedText)
    ensures AllWellFormed(key, ReadCsvRows(text)) ==> SortedLines(key, EofLines(sortedText))
  {
    var rows := ReadCsv(text);
    var sorted := SortRows(rows, key);
    sortedName := GetNewFileName(fileName, "_sorted");
    sortedText := WriteCsv(sorted);
    SortedFileLines(key, text, rows, sorted);
  }

  /** The lines of the written sorted rows are those of the log, in the rows' order. */
  lemma SortedFileLines(key: seq<int>, text: string, rows: seq<Row>, sorted: seq<Row>)
    requires rows == ReadCsvRows(text) && multiset(sorted) == multiset(rows)
    requires AllWellFormed(key, rows) ==> SortedRows(key, sorted)
    ensures EofLines(CsvText(sorted)) == JoinRows(sorted) == GetlineLines(CsvText(sorted))
    ensures multiset(JoinRows(sorted)) == multiset(GetlineLines(text))
    ensures AllWellFormed(key, rows) ==> SortedLines(key, JoinRows(sorted))
  {
    ReadRowsPlain(text);
    PermutedRowsPlain(sorted, rows);
    CsvEofLines(sorted);
    JoinRowsPermutation(sorted, rows);
    JoinParsedLines(GetlineLines(text));
    if AllWellFormed(key, rows) {
      var ls := JoinRows(sorted);
      forall i | 0 <= i < |sorted| ensures RowOf(ls[i]) == sorted[i] {
        JoinRowsAt(sorted, i);
        SplitJoin(sorted[i], ',');
      }
    }
  }

  /** Customer `c` has a row in each file, on different pages. */
  ghost predicate Matched(c: string, day: seq<string>, day0: seq<string>) {
    exists a, b :: a in day && b in day0 && Field(a, 2) == c && Field(b, 2) == c && Field(a, 1) != Field(b, 1)
  }

  /** Both files hold a row of the customer and page of `line`. */
  ghost predicate Echoed(line: string, day: seq<string>, day0: seq<string>) {
    exists a, b :: a in day && b in day0 && Field(a, 2) == Field(line, 2) && Field(b, 2) == Field(line, 2)
                   && Field(a, 1) == Field(line, 1) && Field(b, 1) == Field(line, 1)
  }

  /** Why a row may be left out of the next day-0 file: its customer is loyal, or both days hold its visit. */
  ghost predicate Explained(line: string, loyal: set<string>, day: seq<string>, day0: seq<string>) {
    Field(line, 2) in loyal || Echoed(line, day, day0)
  }

  /**
   * The state of the merge after reading `day[..i]` and `day0[..j]`: each line read was either
   * written to the residual `out` or dropped for a reason, and every customer added to the loyal
   * set has rows on different pages in the two files.
   */
  ghost predicate Scanning(loyal0: set<string>, loyal: set<string>, day: seq<string>, day0: seq<string>,
                           i: int, j: int, out: seq<string>, dropped: multiset<string>) {
    && 0 <= i <= |day| && 0 <= j <= |day0|
    && loyal0 <= loyal
    && multiset(day[..i]) + multiset(day0[..j]) == multiset(out) + dropped
    && (forall c :: c in loyal && c !in loyal0 ==> Matched(c, day, day0))
    && (forall line :: line in dropped ==> Explained(line, loyal, day, day0))
  }

  lemma TakeOne(xs: seq<string>, k: int)
    requires 0 <= k < |xs|
    ensures multiset(xs[..k + 1]) == multiset(xs[..k]) + multiset{xs[k]}
  {
    assert xs[..k + 1] == xs[..k] + [xs[k]];
  }

  /** Writing the current day row to the residual keeps the merge state. */
  lemma KeepDay(loyal0: set<string>, loyal: set<string>, day: seq<string>, day0: seq<string>, i: int, j: int, out: seq<string>, dropped: multiset<string>)
    requires 0 <= i < |day|
    ensures Scanning(loyal0, loyal, day, day0, i, j, out, dropped) ==> Scanning(loyal0, loyal, day, day0, i + 1, j, out + [day[i]], dropped)
  {
    if Scanning(loyal0, loyal, day, day0, i, j, out, dropped) {
      TakeOne(day, i);
      calc {
        multiset(day[..i + 1]) + multiset(day0[..j]);
        (multiset(day[..i]) + multiset(day0[..j])) + multiset{day[i]};
        (multiset(out) + dropped) + multiset{day[i]};
        multiset(out + [day[i]]) + dropped;
      }
    }
  }

  /** Writing the current day-0 row to the residual keeps the merge state. */
  lemma KeepDayZero(loyal0: set<string>, loyal: set<string>, day: seq<string>, day0: seq<string>, i: int, j: int, out: seq<string>, dropped: multiset<string>)
    requires 0 <= j < |day0|
    ensures Scanning(loyal0, loyal, day, day0, i, j, out, dropped) ==> Scanning(loyal0, loyal, day, day0, i, j + 1, out + [day0[j]], dropped)
  {
    if Scanning(loyal0, loyal, day, day0, i, j, out, dropped) {
      TakeOne(day0, j);
      calc {
        multiset(day[..i]) + multiset(day0[..j + 1]);
        (multiset(day[..i]) + multiset(day0[..j])) + multiset{day0[j]};
        (multiset(out) + dropped) + multiset{day0[j]};
        multiset(out + [day0[j]]) + dropped;
      }
    }
  }

  /** Dropping the current day row for a reason keeps the merge state. */
  lemma DropDay(loyal0: set<string>, loyal: set<string>, day: seq<string>, day0: seq<string>, i: int, j: int, out: seq<string>, dropped: multiset<string>)
    requires 0 <= i < |day|
    ensures Scanning(loyal0, loyal, day, day0, i, j, out, dropped) && Explained(day[i], loyal, day, day0) ==>
      Scanning(loyal0, loyal, day, day0, i + 1, j, out, dropped + multiset{day[i]})
  {
    if Scanning(loyal0, loyal, day, day0, i, j, out, dropped) && Explained(day[i], loyal, day, day0) {
      TakeOne(day, i);
      calc {
        multiset(day[..i + 1]) + multiset(day0[..j]);
        (multiset(day[..i]) + multiset(day0[..j])) + multiset{day[i]};
        multiset(out) + (dropped + multiset{day[i]});
      }
      var d := dropped + multiset{day[i]};
      forall line | line in d ensures Explained(line, loyal, day, day0) {
        if line != day[i] {
          assert line in dropped;
        }
      }
    }
  }

  /** Dropping the current day-0 row for a reason keeps the merge state. */
  lemma DropDayZero(loyal0: set<string>, loyal: set<string>, day: seq<string>, day0: seq<string>, i: int, j: int, out: seq<string>, dropped: multiset<string>)
    requires 0 <= j < |day0|
    ensures Scanning(loyal0, loyal, day, day0, i, j, out, dropped) && Explained(day0[j], loyal, day, day0) ==>
      Scanning(loyal0, loyal, day, day0, i, j + 1, out, dropped + multiset{day0[j]})
  {
    if Scanning(loyal0, loyal, day, day0, i, j, out, dropped) && Explained(day0[j], loyal, day, day0) {
      TakeOne(day0, j);
      calc {
        multiset(day[..i]) + multiset(day0[..j + 1]);
        (multiset(day[..i]) + multiset(day0[..j])) + multiset{day0[j]};
        multiset(out) + (dropped + multiset{day0[j]});
      }
      var d := dropped + multiset{day0[j]};
      forall line | line in d ensures Explained(line, loyal, day, day0) {
        if line != day0[j] {
          assert line in dropped;
        }
      }
    }
  }

  /** Adding a matched customer to the loyal set keeps the merge state. */
  lemma AddLoyal(loyal0: set<string>, loyal: set<string>, day: seq<string>, day0: seq<string>, i: int, j: int, out: seq<string>,
                 dropped: multiset<string>, c: string)
    ensures Scanning(loyal0, loyal, day, day0, i, j, out, dropped) && Matched(c, day, day0) ==>
      Scanning(loyal0, loyal + {c}, day, day0, i, j, out, dropped)
  {
  }

  /** Every line has the three fields the merge reads. */
  predicate LogLines(lines: seq<string>) {
    forall k :: 0 <= k < |lines| ==> LogLine(lines[k])
  }

  /** Rows `lo..hi` of a file are all rows of `customer`. */
  ghost predicate RowsOf(lines: seq<string>, lo: int, hi: int, customer: string)
    requires 0 <= lo <= hi <= |lines|
  {
    forall k :: lo <= k < hi ==> Field(lines[k], 2) == customer
  }

  /** Strings neither of which is `<` the other are equal, as `strcmp` returning 0. */
  lemma SameCustomer(a: string, b: string)
    requires !StrLess(a, b) && !StrLess(b, a)
    ensures a == b
  {
    if a != b {
      StrLessTotal(a, b);
      assert false;
    }
  }

  /**
   * The loop after a match that skips the remaining day-0 rows of `customer`, who is now loyal:
   * it drops them and stops at the first row of another customer.
   */
  method SkipDayZero(ghost loyal0: set<string>, loyal: set<string>, day: seq<string>, day0: seq<string>,
                     i: int, j: int, ghost out: seq<string>, ghost dropped: multiset<string>, customer: string)
    returns (j': int, ghost dropped': multiset<string>)
    requires customer in loyal && LogLines(day0)
    requires Scanning(loyal0, loyal, day, day0, i, j, out, dropped)
    ensures Scanning(loyal0, loyal, day, day0, i, j', out, dropped') && j <= j'
    ensures RowsOf(day0, j, j', customer)
    ensures j' < |day0| ==> Field(day0[j'], 2) != customer
  {
    j', dropped' := j, dropped;
    while j' < |day0|
      invariant Scanning(loyal0, loyal, day, day0, i, j', out, dropped') && j <= j'
      invariant RowsOf(day0, j, j', customer)
      decreases |day0| - j'
    {
      assert LogLine(day0[j']);
      var data := Split(day0[j'], ",");
      if data[2] != customer {
        break;
      }
      DropDayZero(loyal0, loyal, day, day0, i, j', out, dropped');
      dropped' := dropped' + multiset{day0[j']};
      j' := j' + 1;
    }
  }

  /**
   * The loop after a match that skips the remaining day rows of `customer`, who is now loyal:
   * it drops them and stops at the first row of another customer.
   */
  method SkipDay(ghost loyal0: set<string>, loyal: set<string>, day: seq<string>, day0: seq<string>,
                 i: int, j: int, ghost out: seq<string>, ghost dropped: multiset<string>, customer: string)
    returns (i': int, ghost dropped': multiset<string>)
    requires customer in loyal && LogLines(day)
    requires Scanning(loyal0, loyal, day, day0, i, j, out, dropped)
    ensures Scanning(loyal0, loyal, day, day0, i', j, out, dropped') && i <= i'
    ensures RowsOf(day, i, i', customer)
    ensures i' < |day| ==> Field(day[i'], 2) != customer
  {
    i', dropped' := i, dropped;
    while i' < |day|
      invariant Scanning(loyal0, loyal, day, day0, i', j, out, dropped') && i <= i'
      invariant RowsOf(day, i, i', customer)
      decreases |day| - i'
    {
      assert LogLine(day[i']);
      var data := Split(day[i'], ",");
      if data[2] != customer {
        break;
      }
      DropDay(loyal0, loyal, day, day0, i', j, out, dropped');
      dropped' := dropped' + multiset{day[i']};
      i' := i' + 1;
    }
  }

  /**
   * One pass of the inner loop: the day row `i` (already split into `dayData`) against the
   * day-0 row `j`. It ends the inner loop (`done`) once the day row is used up; otherwise it
   * has consumed the day-0 row only.
   */
  method DayZeroStep(ghost loyal0: set<string>, loyal: set<string>, day: seq<string>, day0: seq<string>,
                     i: int, j: int, out: seq<string>, ghost dropped: multiset<string>, dayData: seq<string>)
    returns (loyal': set<string>, i': int, j': int, out': seq<string>, ghost dropped': multiset<string>, done: bool)
    requires LogLines(day) && LogLines(day0) && 0 <= i < |day| && 0 <= j < |day0|
    requires dayData == SplitTokens(day[i], ",") && Field(day[i], 2) !in loyal
    requires Scanning(loyal0, loyal, day, day0, i, j, out, dropped)
    ensures Scanning(loyal0, loyal', day, day0, i', j', out', dropped')
    ensures done ==> i < i' && j <= j'
    ensures !done ==> i' == i && j' == j + 1 && loyal' == loyal
    // a day-0 row of a loyal customer is skipped
    ensures Field(day0[j], 2) in loyal ==> !done && out' == out && dropped' == dropped + multiset{day0[j]}
    // the day-0 customer is greater: the day row is kept
    ensures Field(day0[j], 2) !in loyal && StrLess(Field(day[i], 2), Field(day0[j], 2)) ==>
      done && out' == out + [day[i]] && i' == i + 1 && j' == j && loyal' == loyal
    // the day-0 customer is smaller: the day-0 row is kept
    ensures Field(day0[j], 2) !in loyal && StrLess(Field(day0[j], 2), Field(day[i], 2)) ==>
      !done && out' == out + [day0[j]]
    // same customer, different pages: it becomes loyal
    ensures Field(day0[j], 2) == Field(day[i], 2) && Field(day0[j], 1) != Field(day[i], 1) ==>
      done && out' == out && loyal' == loyal + {Field(day[i], 2)}
    // same customer, same page: both rows are dropped, unless the next day-0 row is of the same customer
    ensures Field(day0[j], 2) == Field(day[i], 2) && Field(day0[j], 1) == Field(day[i], 1) ==>
      out' == out && j' == j + 1 && loyal' == loyal &&
      (!done <==> j + 1 < |day0| && Field(day0[j + 1], 2) == Field(day[i], 2)) &&
      (done ==> i' == i + 1)
  {
    assert LogLine(day[i]) && LogLine(day0[j]);
    var data0 := Split(day0[j], ",");
    var page, customer := dayData[1], dayData[2];
    var page0, customer0 := data0[1], data0[2];
    StrLessIrreflexive(customer);
    StrLessAsymmetric(customer, customer0);
    loyal', i', j', out', dropped' := loyal, i, j, out, dropped;
    if customer0 in loyal {
      DropDayZero(loyal0, loyal, day, day0, i, j, out, dropped);
      dropped' := dropped + multiset{day0[j]};
      j', done := j + 1, false;
    } else if StrLess(customer, customer0) {
      // the day-0 file is past this customer: keep the day row for the next day-0 file
      var line := Join(dayData, ",");
      JoinSplit(day[i], ",");
      KeepDay(loyal0, loyal, day, day0, i, j, out, dropped);
      out', i', done := out + [line], i + 1, true;
    } else if StrLess(customer0, customer) {
      // the day file is past this day-0 customer: keep the day-0 row
      KeepDayZero(loyal0, loyal, day, day0, i, j, out, dropped);
      out', j', done := out + [day0[j]], j + 1, false;
    } else {
      SameCustomer(customer, customer0);
      assert day[i] in day && day0[j] in day0;
      if page0 != page {
        loyal', i', j', dropped' := BecomeLoyal(loyal0, loyal, day, day0, i, j, out, dropped);
        done := true;
      } else {
        i', j', dropped', done := SamePage(loyal0, loyal, day, day0, i, j, out, dropped);
      }
    }
  }

  /**
   * The customer of day row `i` and day-0 row `j` came on both days and saw two pages: it
   * becomes loyal, and the rest of its rows in both files are skipped.
   */
  method BecomeLoyal(ghost loyal0: set<string>, loyal: set<string>, day: seq<string>, day0: seq<string>,
                     i: int, j: int, ghost out: seq<string>, ghost dropped: multiset<string>)
    returns (loyal': set<string>, i': int, j': int, ghost dropped': multiset<string>)
    requires LogLines(day) && LogLines(day0) && 0 <= i < |day| && 0 <= j < |day0|
    requires Field(day[i], 2) == Field(day0[j], 2) && Field(day[i], 1) != Field(day0[j], 1)
    requires Scanning(loyal0, loyal, day, day0, i, j, out, dropped)
    ensures Scanning(loyal0, loyal', day, day0, i', j', out, dropped')
    ensures loyal' == loyal + {Field(day[i], 2)} && i < i' && j < j'
    // only rows of this customer are skipped
    ensures RowsOf(day, i, i', Field(day[i], 2)) && RowsOf(day0, j, j', Field(day[i], 2))
    ensures i' < |day| ==> Field(day[i'], 2) != Field(day[i], 2)
    ensures j' < |day0| ==> Field(day0[j'], 2) != Field(day[i], 2)
  {
    var customer := Field(day[i], 2);
    assert day[i] in day && day0[j] in day0;
    AddLoyal(loyal0, loyal, day, day0, i, j, out, dropped, customer);
    loyal' := loyal + {customer};
    DropDayZero(loyal0, loyal', day, day0, i, j, out, dropped);
    ghost var d1;
    j', d1 := SkipDayZero(loyal0, loyal', day, day0, i, j + 1, out, dropped + multiset{day0[j]}, customer);
    DropDay(loyal0, loyal', day, day0, i, j', out, d1);
    i', dropped' := SkipDay(loyal0, loyal', day, day0, i + 1, j', out, d1 + multiset{day[i]}, customer);
  }

  /**
   * Day row `i` and day-0 row `j` record the same customer on the same page: the day-0 row is
   * consumed, and so is the day row unless the next day-0 row is of the same customer.
   */
  method SamePage(ghost loyal0: set<string>, loyal: set<string>, day: seq<string>, day0: seq<string>,
                  i: int, j: int, ghost out: seq<string>, ghost dropped: multiset<string>)
    returns (i': int, j': int, ghost dropped': multiset<string>, done: bool)
    requires LogLines(day0) && 0 <= i < |day| && 0 <= j < |day0|
    requires Field(day[i], 2) == Field(day0[j], 2) && Field(day[i], 1) == Field(day0[j], 1)
    requires Scanning(loyal0, loyal, day, day0, i, j, out, dropped)
    ensures Scanning(loyal0, loyal, day, day0, i', j', out, dropped') && j' == j + 1
    ensures done <==> i' == i + 1
    ensures !done <==> i' == i
    ensures !done <==> j' < |day0| && Field(day0[j'], 2) == Field(day[i], 2)
  {
    assert day[i] in day && day0[j] in day0;
    DropDayZero(loyal0, loyal, day, day0, i, j, out, dropped);
    dropped', j', i' := dropped + multiset{day0[j]}, j + 1, i;
    done := true;
    if j' < |day0| {
      assert LogLine(day0[j']);
      var pre0 := Split(day0[j'], ",");
      if pre0[2] == Field(day[i], 2) {
        done := false;
      }
    }
    if done {
      DropDay(loyal0, loyal, day, day0, i, j', out, dropped');
      dropped', i' := dropped' + multiset{day[i]}, i + 1;
    }
  }

  /**
   * The inner loop: day-0 rows are consumed against the day row `i` until that row is used up
   * or the day-0 file ends.
   */
  method MatchDayLine(ghost loyal0: set<string>, loyal: set<string>, day: seq<string>, day0: seq<string>,
                      i: int, j: int, out: seq<string>, ghost dropped: multiset<string>, dayData: seq<string>)
    returns (loyal': set<string>, i': int, j': int, out': seq<string>, ghost dropped': multiset<string>)
    requires LogLines(day) && LogLines(day0) && 0 <= i < |day| && 0 <= j < |day0|
    requires dayData == SplitTokens(day[i], ",") && Field(day[i], 2) !in loyal
    requires Scanning(loyal0, loyal, day, day0, i, j, out, dropped)
    ensures Scanning(loyal0, loyal', day, day0, i', j', out', dropped')
    ensures i <= i' && j <= j' && i + j < i' + j'
  {
    loyal', i', j', out', dropped' := loyal, i, j, out, dropped;
    while j' < |day0|
      invariant Scanning(loyal0, loyal', day, day0, i', j', out', dropped')
      invariant i' == i && loyal' == loyal && j <= j'
      decreases |day0| - j'
    {
      var l, a, b, o, d, done := DayZeroStep(loyal0, loyal', day, day0, i', j', out', dropped', dayData);
      loyal', i', j', out', dropped' := l, a, b, o, d;
      if done {
        break;
      }
    }
  }

  /**
   * One pass of the outer loop: a day row of a loyal customer is skipped, any other is matched
   * against the day-0 file.
   */
  method DayRowStep(ghost loyal0: set<string>, loyal: set<string>, day: seq<string>, day0: seq<string>,
                   i: int, j: int, out: seq<string>, ghost dropped: multiset<string>)
    returns (loyal': set<string>, i': int, j': int, out': seq<string>, ghost dropped': multiset<string>)
    requires LogLines(day) && LogLines(day0) && 0 <= i < |day| && 0 <= j < |day0|
    requires Scanning(loyal0, loyal, day, day0, i, j, out, dropped)
    ensures Scanning(loyal0, loyal', day, day0, i', j', out', dropped')
    ensures i <= i' && j <= j' && i + j < i' + j'
    ensures Field(day[i], 2) in loyal ==> loyal' == loyal && i' == i + 1 && j' == j && out' == out && dropped' == dropped + multiset{day[i]}
  {
    assert LogLine(day[i]);
    var dayData := Split(day[i], ",");
    if dayData[2] in loyal {
      DropDay(loyal0, loyal, day, day0, i, j, out, dropped);
      return loyal, i + 1, j, out, dropped + multiset{day[i]};
    }
    loyal', i', j', out', dropped' := MatchDayLine(loyal0, loyal, day, day0, i, j, out, dropped, dayData);
  }

  /** The loop after the merge that keeps the rest of the day file. */
  method CopyDayRest(ghost loyal0: set<string>, loyal: set<string>, day: seq<string>, day0: seq<string>,
                     i: int, j: int, out: seq<string>, ghost dropped: multiset<string>)
    returns (out': seq<string>)
    requires Scanning(loyal0, loyal, day, day0, i, j, out, dropped)
    ensures Scanning(loyal0, loyal, day, day0, |day|, j, out', dropped)
    ensures out' == out + day[i..]
  {
    var i' := i;
    out' := out;
    while i' < |day|
      invariant Scanning(loyal0, loyal, day, day0, i', j, out', dropped)
      invariant i <= i' && out' == out + day[i..i']
      decreases |day| - i'
    {
      KeepDay(loyal0, loyal, day, day0, i', j, out', dropped);
      assert day[i..i' + 1] == day[i..i'] + [day[i']];
      out', i' := out' + [day[i']], i' + 1;
    }
    assert day[i..i'] == day[i..];
  }

  /** The loop after the merge that keeps the rest of the day-0 file. */
  method CopyDayZeroRest(ghost loyal0: set<string>, loyal: set<string>, day: seq<string>, day0: seq<string>,
                         i: int, j: int, out: seq<string>, ghost dropped: multiset<string>)
    returns (out': seq<string>)
    requires Scanning(loyal0, loyal, day, day0, i, j, out, dropped)
    ensures Scanning(loyal0, loyal, day, day0, i, |day0|, out', dropped)
    ensures out' == out + day0[j..]
  {
    var j' := j;
    out' := out;
    while j' < |day0|
      invariant Scanning(loyal0, loyal, day, day0, i, j', out', dropped)
      invariant j <= j' && out' == out + day0[j..j']
      decreases |day0| - j'
    {
      KeepDayZero(loyal0, loyal, day, day0, i, j', out', dropped);
      assert day0[j..j' + 1] == day0[j..j'] + [day0[j']];
      out', j' := out' + [day0[j']], j' + 1;
    }
    assert day0[j..j'] == day0[j..];
  }

  /** The residual only holds lines read from the two files, so none contains a line break. */
  lemma ResidualLines(day: seq<string>, day0: seq<string>, out: seq<string>, dropped: multiset<string>)
    requires forall k :: 0 <= k < |day| ==> '\n' !in day[k]
    requires forall k :: 0 <= k < |day0| ==> '\n' !in day0[k]
    requires multiset(day) + multiset(day0) == multiset(out) + dropped
    ensures forall k :: 0 <= k < |out| ==> '\n' !in out[k]
  {
    forall k | 0 <= k < |out| ensures '\n' !in out[k] {
      assert out[k] in multiset(out) + dropped;
      if out[k] in multiset(day) {
        var m :| 0 <= m < |day| && day[m] == out[k];
      } else {
        assert out[k] in multiset(day0);
        var m :| 0 <= m < |day0| && day0[m] == out[k];
      }
    }
  }

  /**
   * `find_loyal_customers`: with no day-0 file, the day file becomes the day-0 file. Otherwise
   * the sorted day file is merged against the day-0 file: every customer it adds to the loyal
   * set has rows in both files on different pages, every row read is either written to the next
   * day-0 file or left out because its customer is loyal or both days hold its visit, and the
   * next day-0 file is read back as the rows written.
   */
  method FindLoyalCustomersSorted(loyal: set<string>, day0: Option<string>, process: string)
    returns (loyal': set<string>, day0': string, ghost dropped: multiset<string>)
    requires day0.Some? ==> LogLines(EofLines(process)) && LogLines(EofLines(day0.value))
    ensures day0.None? ==> loyal' == loyal && day0' == process && dropped == multiset{}
    ensures day0.Some? ==> loyal <= loyal'
    ensures day0.Some? ==> forall c :: c in loyal' && c !in loyal ==> Matched(c, EofLines(process), EofLines(day0.value))
    ensures day0.Some? ==> multiset(EofLines(process)) + multiset(EofLines(day0.value)) == multiset(EofLines(day0')) + dropped
    ensures day0.Some? ==> forall line :: line in dropped ==> Explained(line, loyal', EofLines(process), EofLines(day0.value))
    ensures day0.Some? ==> GetlineLines(day0') == EofLines(day0')
  {
    if day0.None? {
      return loyal, process, multiset{};
    }
    var day := EofLines(process);
    var zero := EofLines(day0.value);
    var i, j, out := 0, 0, [];
    loyal', dropped := loyal, multiset{};
    while i < |day| && j < |zero|
      invariant Scanning(loyal, loyal', day, zero, i, j, out, dropped)
      decreases |day| - i + |zero| - j
    {
      loyal', i, j, out, dropped := DayRowStep(loyal, loyal', day, zero, i, j, out, dropped);
    }
    out := CopyDayRest(loyal, loyal', day, zero, i, j, out, dropped);
    out := CopyDayZeroRest(loyal, loyal', day, zero, |day|, j, out, dropped);
    i, j := |day|, |zero|;
    assert day[..i] == day && zero[..j] == zero;
    ResidualLines(day, zero, out, dropped);
    day0' := TerminatedText(out);
    TerminatedEofLines(out);
  }

  /** A line built from three comma-free fields splits back into them. */
  lemma Fields(line: string, t: string, p: string, c: string)
    requires line == t + "," + p + "," + c
    requires ',' !in t && ',' !in p && ',' !in c
    ensures SplitTokens(line, ",") == [t, p, c] && LogLine(line)
    ensures Field(line, 1) == p && Field(line, 2) == c
  {
    assert [t, p, c][1..] == [p, c] && [p, c][1..] == [c];
    assert Joined([c], ",") == c;
    assert Joined([p, c], ",") == p + "," + c;
    assert Joined([t, p, c], ",") == t + "," + (p + "," + c) == line;
    SplitJoin([t, p, c], ',');
  }

  /**
   * The pass is not complete. Day 0 holds `t,p1,c`; the day holds `t,p1,c` and `t,p2,c`, with
   * `p1 != p2`. The customer is not loyal, so the inner loop compares the first rows. Same customer,
   * same page: the day-0 row is dropped, the day-0 file is then at its end, so the day row is
   * dropped too and both loops end. The remaining day row `t,p2,c` is copied to the residual.
   * Customer `c` came on both days and saw two pages, yet is not made loyal.
   */
  method SecondPageAfterLastDayZeroRowIsLost(t: string, p1: string, p2: string, c: string)
    returns (loyal': set<string>, out: seq<string>)
    requires ',' !in t && ',' !in p1 && ',' !in p2 && ',' !in c && p1 != p2
    ensures Matched(c, [t + "," + p1 + "," + c, t + "," + p2 + "," + c], [t + "," + p1 + "," + c])
    ensures c !in loyal' && out == [t + "," + p2 + "," + c]
  {
    var a, b := t + "," + p1 + "," + c, t + "," + p2 + "," + c;
    var day, day0 := [a, b], [a];
    Fields(a, t, p1, c);
    Fields(b, t, p2, c);
    assert LogLines(day) && LogLines(day0);
    assert b in day && a in day0;
    assert Scanning({}, {}, day, day0, 0, 0, [], multiset{});
    var data := Split(a, ",");
    var i, j, out0, done;
    ghost var dropped;
    loyal', i, j, out0, dropped, done := DayZeroStep({}, {}, day, day0, 0, 0, [], multiset{}, data);
    assert i == 1 && j == 1 && out0 == [] && loyal' == {};
    out := CopyDayRest({}, loyal', day, day0, i, j, out0, dropped);
    assert day[1..] == [b];
  }
}
