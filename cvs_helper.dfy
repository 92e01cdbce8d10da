/**
 * The CSV reader and writer of cvs_helper.cpp: one record per line, fields
 * separated by ',' with no quoting.
 */
module CsvHelper {
  import opened StringHelper

  type Row = seq<string>

  /** The lines a `while (getline(in, line))` loop reads: the text split on '\n', without the empty segment after a final '\n'. */
  function GetlineLines(text: string): (r: seq<string>)
    ensures forall i :: 0 <= i < |r| ==> '\n' !in r[i]
  {
    var segs := SplitTokens(text, "\n");
    TokensAvoidChar(text, '\n');
    if segs[|segs| - 1] == "" then segs[..|segs| - 1] else segs
  }

  /** Each line split on ','. */
  function ParseLines(lines: seq<string>): (rows: seq<Row>)
    ensures |rows| == |lines|
    decreases |lines|
  {
    if |lines| == 0 then [] else [SplitTokens(lines[0], ",")] + ParseLines(lines[1..])
  }

  lemma {:induction false} ParseLinesAt(lines: seq<string>, i: nat)
    requires i < |lines|
    ensures ParseLines(lines)[i] == SplitTokens(lines[i], ",")
    decreases |lines|
  {
    if i > 0 {
      ParseLinesAt(lines[1..], i - 1);
    }
  }

  /** The rows `read_cvs` returns for a file holding `text`. */
  function ReadCsvRows(text: string): seq<Row>
  {
    ParseLines(GetlineLines(text))
  }

  /** The text `write_cvs` writes: each row joined by ',' and terminated by '\n'. */
  function CsvText(rows: seq<Row>): string
    decreases |rows|
  {
    if |rows| == 0 then "" else Joined(rows[0], ",") + "\n" + CsvText(rows[1..])
  }

  lemma {:induction false} CsvTextSnoc(rows: seq<Row>, r: Row)
    ensures CsvText(rows + [r]) == CsvText(rows) + Joined(r, ",") + "\n"
    decreases |rows|
  {
    if |rows| == 0 {
      assert (rows + [r])[1..] == [];
    } else {
      assert (rows + [r])[1..] == rows[1..] + [r];
      CsvTextSnoc(rows[1..], r);
    }
  }

  /** `read_cvs`: one row per line read, each line split on ','. */
  method ReadCsv(text: string) returns (rows: seq<Row>)
    ensures rows == ReadCsvRows(text)
    ensures forall i :: 0 <= i < |rows| ==> |rows[i]| >= 1
    ensures text == "" ==> rows == []
  {
    var lines := Split(text, "\n");
    if lines[|lines| - 1] == "" {
      lines := lines[..|lines| - 1];
    }
    assert lines == GetlineLines(text);
    rows := [];
    var i := 0;
    while i < |lines|
      invariant 0 <= i <= |lines|
      invariant rows == ParseLines(lines)[..i]
    {
      var data := Split(lines[i], ",");
      ParseLinesAt(lines, i);
      assert ParseLines(lines)[..i + 1] == ParseLines(lines)[..i] + [data];
      rows := rows + [data];
      i := i + 1;
    }
    assert ParseLines(lines)[..i] == ParseLines(lines);
    ReadRowsPlain(text);
    if text == "" {
      SplitNoDelimiter("", '\n');
    }
  }

  /** `write_cvs`: every row joined by ',' and followed by '\n'. */
  method WriteCsv(rows: seq<Row>) returns (text: string)
    ensures text == CsvText(rows)
  {
    text := "";
    var i := 0;
    while i < |rows|
      invariant 0 <= i <= |rows|
      invariant text == CsvText(rows[..i])
    {
      var line := Join(rows[i], ",");
      assert rows[..i + 1] == rows[..i] + [rows[i]];
      CsvTextSnoc(rows[..i], rows[i]);
      text := text + line + "\n";
      i := i + 1;
    }
    assert rows[..i] == rows;
  }

  /** Number of occurrences of `c` in `s`. */
  function CountChar(s: string, c: char): nat
    decreases |s|
  {
    if |s| == 0 then 0 else (if s[0] == c then 1 else 0) + CountChar(s[1..], c)
  }

  lemma {:induction false} CountCharConcat(a: string, b: string, c: char)
    ensures CountChar(a + b, c) == CountChar(a, c) + CountChar(b, c)
    decreases |a|
  {
    if |a| == 0 {
      assert a + b == b;
    } else {
      assert (a + b)[0] == a[0];
      assert (a + b)[1..] == a[1..] + b;
      CountCharConcat(a[1..], b, c);
    }
  }

  lemma {:induction false} CountCharAbsent(s: string, c: char)
    requires c !in s
    ensures CountChar(s, c) == 0
    decreases |s|
  {
    if |s| > 0 {
      CountCharAbsent(s[1..], c);
    }
  }

  /** No field holds ',' or '\n'. */
  ghost predicate PlainFields(rows: seq<Row>) {
    forall i, j :: 0 <= i < |rows| && 0 <= j < |rows[i]| ==> ',' !in rows[i][j] && '\n' !in rows[i][j]
  }

  /** The text of `write_cvs` holds exactly one '\n' per row when no field holds '\n'. */
  lemma {:induction false} CsvTextNewlines(rows: seq<Row>)
    requires PlainFields(rows)
    ensures CountChar(CsvText(rows), '\n') == |rows|
    decreases |rows|
  {
    if |rows| > 0 {
      var line := Joined(rows[0], ",");
      NoCharInJoined(rows[0], ",", '\n');
      CountCharAbsent(line, '\n');
      CountCharConcat(line, "\n", '\n');
      CountCharConcat(line + "\n", CsvText(rows[1..]), '\n');
      assert PlainFields(rows[1..]) by {
        forall i, j | 0 <= i < |rows[1..]| && 0 <= j < |rows[1..][i]|
          ensures ',' !in rows[1..][i][j] && '\n' !in rows[1..][i][j]
        {
          assert rows[1..][i] == rows[i + 1];
        }
      }
      CsvTextNewlines(rows[1..]);
    }
  }

  /** Each row joined by ','. */
  function JoinRows(rows: seq<Row>): (lines: seq<string>)
    ensures |lines| == |rows|
    decreases |rows|
  {
    if |rows| == 0 then [] else [Joined(rows[0], ",")] + JoinRows(rows[1..])
  }

  /** Splitting the writer's text on '\n' gives the joined rows and one empty segment after the final '\n'. */
  lemma {:induction false} CsvTextSegments(rows: seq<Row>)
    requires PlainFields(rows)
    ensures SplitTokens(CsvText(rows), "\n") == JoinRows(rows) + [""]
    decreases |rows|
  {
    if |rows| == 0 {
      SplitNoDelimiter("", '\n');
    } else {
      NoCharInJoined(rows[0], ",", '\n');
      SplitCons(Joined(rows[0], ","), '\n', CsvText(rows[1..]));
      assert PlainFields(rows[1..]) by {
        forall i, j | 0 <= i < |rows[1..]| && 0 <= j < |rows[1..][i]|
          ensures ',' !in rows[1..][i][j] && '\n' !in rows[1..][i][j]
        {
          assert rows[1..][i] == rows[i + 1];
        }
      }
      CsvTextSegments(rows[1..]);
    }
  }

  /** Splitting each joined row on ',' gives back the rows, when rows are non-empty with plain fields. */
  lemma {:induction false} ParseJoinRows(rows: seq<Row>)
    requires PlainFields(rows)
    requires forall i :: 0 <= i < |rows| ==> |rows[i]| >= 1
    ensures ParseLines(JoinRows(rows)) == rows
    decreases |rows|
  {
    if |rows| > 0 {
      SplitJoin(rows[0], ',');
      assert PlainFields(rows[1..]) by {
        forall i, j | 0 <= i < |rows[1..]| && 0 <= j < |rows[1..][i]|
          ensures ',' !in rows[1..][i][j] && '\n' !in rows[1..][i][j]
        {
          assert rows[1..][i] == rows[i + 1];
        }
      }
      ParseJoinRows(rows[1..]);
    }
  }

  /** `read_cvs(write_cvs(rows)) == rows` for non-empty rows whose fields hold neither ',' nor '\n'. */
  lemma WriteReadRoundTrip(rows: seq<Row>)
    requires PlainFields(rows)
    requires forall i :: 0 <= i < |rows| ==> |rows[i]| >= 1
    ensures ReadCsvRows(CsvText(rows)) == rows
  {
    CsvTextSegments(rows);
    assert GetlineLines(CsvText(rows)) == JoinRows(rows);
    ParseJoinRows(rows);
  }

  /** Rows that `read_cvs` returns are non-empty and their fields hold neither ',' nor '\n'. */
  lemma ReadRowsPlain(text: string)
    ensures PlainFields(ReadCsvRows(text))
    ensures forall i :: 0 <= i < |ReadCsvRows(text)| ==> |ReadCsvRows(text)[i]| >= 1
  {
    var lines := GetlineLines(text);
    var rows := ReadCsvRows(text);
    forall i | 0 <= i < |rows|
      ensures |rows[i]| >= 1
      ensures forall j :: 0 <= j < |rows[i]| ==> ',' !in rows[i][j] && '\n' !in rows[i][j]
    {
      ParseLinesAt(lines, i);
      TokensFreeOf(lines[i], ",", '\n');
      TokensAvoidChar(lines[i], ',');
    }
  }
}
