/**
 * Whole CSV files: the printer joins rows with line feeds. The upload splits the text at line ends,
 * trims every line and drops the blank ones, parses each line and trims its fields.
 */
module CsvFile {
  import opened Wrappers
  import opened Csv

  function DropReturn(line: string): string {
    if line != [] && line[|line| - 1] == '\r' then line[..|line| - 1] else line
  }

  /** Splitting at a line feed with an optional carriage return before it; `cur` is the line so far. */
  function LinesFrom(s: string, cur: string): (lines: seq<string>)
    ensures lines != []
  {
    if s == [] then [cur]
    else if s[0] == '\n' then [DropReturn(cur)] + LinesFrom(s[1..], [])
    else LinesFrom(s[1..], cur + [s[0]])
  }

  function Lines(text: string): seq<string> {
    LinesFrom(text, [])
  }

  // ── The upload ──

  const MARK: char := 0xFEFF as char

  /** What trimming removes: white space and line ends of the scripting language, the byte order mark
      among them. */
  predicate IsSpace(c: char) {
    var n := c as int;
    9 <= n <= 13 || n == 32 || n == 0xA0 || n == 0x1680 || 0x2000 <= n <= 0x200A ||
    n == 0x2028 || n == 0x2029 || n == 0x202F || n == 0x205F || n == 0x3000 || n == 0xFEFF
  }

  function TrimStart(s: string): (r: string)
    ensures r == [] || !IsSpace(r[0])
    ensures forall c :: c in r ==> c in s
    ensures s == [] || !IsSpace(s[0]) ==> r == s
  {
    if s != [] && IsSpace(s[0]) then TrimStart(s[1..]) else s
  }

  function TrimEnd(s: string): (r: string)
    ensures r == [] || !IsSpace(r[|r| - 1])
    ensures |r| <= |s| && r == s[..|r|]
    ensures s == [] || !IsSpace(s[|s| - 1]) ==> r == s
  {
    if s != [] && IsSpace(s[|s| - 1]) then TrimEnd(s[..|s| - 1]) else s
  }

  /** Nothing to trim at either end. */
  predicate Trimmed(s: string) {
    s == [] || (!IsSpace(s[0]) && !IsSpace(s[|s| - 1]))
  }

  function Trim(s: string): (r: string)
    ensures Trimmed(r)
    ensures Trimmed(s) ==> r == s
    ensures forall c :: c in r ==> c in s
  {
    TrimEnd(TrimStart(s))
  }

  function TrimAll(parts: seq<string>): (r: seq<string>)
    ensures |r| == |parts| && forall k :: 0 <= k < |r| ==> r[k] == Trim(parts[k])
  {
    if parts == [] then [] else [Trim(parts[0])] + TrimAll(parts[1..])
  }

  function NonBlank(lines: seq<string>): (r: seq<string>)
    ensures |r| <= |lines|
    ensures forall line :: line in r ==> line in lines
  {
    if lines == [] then []
    else (if lines[0] == [] then [] else [lines[0]]) + NonBlank(lines[1..])
  }

  function ReadAll(lines: seq<string>): (rows: seq<seq<string>>)
    ensures |rows| == |lines| && forall k :: 0 <= k < |rows| ==> rows[k] == TrimAll(ParseRow(lines[k]))
  {
    if lines == [] then [] else [TrimAll(ParseRow(lines[0]))] + ReadAll(lines[1..])
  }

  function KeptLines(text: string): seq<string> {
    NonBlank(TrimAll(Lines(text)))
  }

  function StripMark(text: string): string {
    if text != [] && text[0] == MARK then text[1..] else text
  }

  /** The rows of an uploaded file, its header first, or nothing when there is no row below it. */
  function Upload(text: string): Option<seq<seq<string>>> {
    var lines := KeptLines(StripMark(text));
    if |lines| < 2 then None else Some(ReadAll(lines))
  }

  // ── Counting line feeds ──

  function Feeds(s: string): nat {
    if s == [] then 0 else (if s[0] == '\n' then 1 else 0) + Feeds(s[1..])
  }

  function FeedsInRow(row: seq<string>): nat {
    if row == [] then 0 else Feeds(row[0]) + FeedsInRow(row[1..])
  }

  function FeedsInAll(rows: seq<seq<string>>): nat {
    if rows == [] then 0 else FeedsInRow(rows[0]) + FeedsInAll(rows[1..])
  }

  lemma {:induction false} FeedsConcat(a: string, b: string)
    ensures Feeds(a + b) == Feeds(a) + Feeds(b)
  {
    if a == [] {
      assert a + b == b;
    } else {
      FeedsConcat(a[1..], b);
      assert (a + b)[1..] == a[1..] + b;
    }
  }

  lemma {:induction false} FeedsDoubled(value: string)
    ensures Feeds(DoubleQuotes(value)) == Feeds(value)
  {
    if value != [] {
      FeedsDoubled(value[1..]);
      FeedsConcat("\"\"", DoubleQuotes(value[1..]));
      FeedsConcat([value[0]], DoubleQuotes(value[1..]));
    }
  }

  lemma FeedsEscaped(value: string)
    ensures Feeds(Escape(value)) == Feeds(value)
  {
    FeedsDoubled(value);
    FeedsConcat("\"", DoubleQuotes(value) + "\"");
    FeedsConcat(DoubleQuotes(value), "\"");
  }

  lemma {:induction false} FeedsInLine(row: seq<string>)
    ensures Feeds(PrintRow(row)) == FeedsInRow(row)
  {
    if row != [] {
      var value, line := row[0], PrintRow(row[1..]);
      FeedsInLine(row[1..]);
      FeedsEscaped(value);
      assert EscapeAll(row)[1..] == EscapeAll(row[1..]);
      FeedsConcat(Escape(value), [','] + line);
      FeedsConcat([','], line);
    }
  }

  /** One line feed between rows, and those inside fields. */
  lemma {:induction false} FeedsInFile(rows: seq<seq<string>>)
    requires rows != []
    ensures Feeds(ToCsv(rows)) == |rows| - 1 + FeedsInAll(rows)
  {
    FeedsInLine(rows[0]);
    if |rows| > 1 {
      var line, text := PrintRow(rows[0]), ToCsv(rows[1..]);
      FeedsInFile(rows[1..]);
      assert PrintAll(rows)[1..] == PrintAll(rows[1..]);
      FeedsConcat(line, ['\n'] + text);
      FeedsConcat(['\n'], text);
    } else {
      assert rows == [rows[0]];
    }
  }

  lemma {:induction false} LineCount(s: string, cur: string)
    ensures |LinesFrom(s, cur)| == 1 + Feeds(s)
    decreases |s|
  {
    if s == [] {
    } else if s[0] == '\n' {
      LineCount(s[1..], []);
    } else {
      LineCount(s[1..], cur + [s[0]]);
    }
  }

  // ── Files ──

  predicate EndsInReturn(s: string) {
    s != [] && s[|s| - 1] == '\r'
  }

  lemma EscapedEnd(value: string)
    ensures !EndsInReturn(Escape(value))
  {
    if EndsInReturn(value) {
      assert Special(value[|value| - 1]);
    }
  }

  /** A field that holds a carriage return is quoted, so no line ends in one. */
  lemma {:induction false} PrintedEnd(row: seq<string>)
    ensures !EndsInReturn(PrintRow(row))
  {
    if row != [] {
      EscapedEnd(row[0]);
      if |row| > 1 {
        PrintedEnd(row[1..]);
        assert EscapeAll(row)[1..] == EscapeAll(row[1..]);
        assert PrintRow(row) == Escape(row[0]) + ([','] + PrintRow(row[1..]));
      }
    }
  }

  /** A line without line feeds is read up to the feed that ends it. */
  lemma {:induction false} ReadLine(line: string, rest: string, cur: string)
    requires Feeds(line) == 0
    ensures LinesFrom(line + rest, cur) == LinesFrom(rest, cur + line)
    decreases |line|
  {
    if line == [] {
      assert line + rest == rest && cur + line == cur;
    } else {
      ReadLine(line[1..], rest, cur + [line[0]]);
      assert (line + rest)[1..] == line[1..] + rest;
      assert cur + [line[0]] + line[1..] == cur + line;
    }
  }

  /** Without line feeds inside fields, the lines are the printed rows. */
  lemma {:induction false} LinesOfFile(rows: seq<seq<string>>)
    requires rows != [] && FeedsInAll(rows) == 0
    ensures Lines(ToCsv(rows)) == PrintAll(rows)
  {
    var line := PrintRow(rows[0]);
    FeedsInLine(rows[0]);
    assert [] + line == line;
    if |rows| == 1 {
      ReadLine(line, [], []);
      assert line + [] == line;
      assert PrintAll(rows) == [line];
    } else {
      var text := ToCsv(rows[1..]);
      LinesOfFile(rows[1..]);
      assert PrintAll(rows)[1..] == PrintAll(rows[1..]);
      ReadLine(line, ['\n'] + text, []);
      PrintedEnd(rows[0]);
      assert (['\n'] + text)[1..] == text;
    }
  }

  lemma {:induction false} PrintedAt(rows: seq<seq<string>>, k: nat)
    requires k < |rows|
    ensures PrintAll(rows)[k] == PrintRow(rows[k])
  {
    if k > 0 { PrintedAt(rows[1..], k - 1); }
  }

  predicate NoFeeds(row: seq<string>) {
    forall k :: 0 <= k < |row| ==> '\n' !in row[k]
  }

  /** A row that stays on one line and is told apart from the row with one empty field. */
  predicate FitsOneLine(row: seq<string>) {
    row != [] && NoFeeds(row)
  }

  lemma {:induction false} FeedsInRowIff(row: seq<string>)
    ensures FeedsInRow(row) == 0 <==> NoFeeds(row)
  {
    if row != [] {
      FeedsIff(row[0]);
      FeedsInRowIff(row[1..]);
      assert forall k :: 1 <= k < |row| ==> row[k] == row[1..][k - 1];
    }
  }

  lemma {:induction false} FeedsIff(s: string)
    ensures Feeds(s) == 0 <==> '\n' !in s
  {
    if s != [] {
      FeedsIff(s[1..]);
      assert s == [s[0]] + s[1..];
    }
  }

  lemma {:induction false} FeedsInAllIff(rows: seq<seq<string>>)
    ensures FeedsInAll(rows) == 0 <==> forall k :: 0 <= k < |rows| ==> NoFeeds(rows[k])
  {
    if rows != [] {
      FeedsInRowIff(rows[0]);
      FeedsInAllIff(rows[1..]);
      assert forall k :: 1 <= k < |rows| ==> rows[k] == rows[1..][k - 1];
    }
  }

  // ── What the upload can return ──

  lemma {:induction false} LinesHaveNoFeed(s: string, cur: string)
    requires '\n' !in cur
    ensures forall line :: line in LinesFrom(s, cur) ==> '\n' !in line
    decreases |s|
  {
    if s == [] {
    } else if s[0] == '\n' {
      LinesHaveNoFeed(s[1..], []);
    } else {
      LinesHaveNoFeed(s[1..], cur + [s[0]]);
    }
  }

  lemma {:induction false} FieldsHaveNoFeed(s: string, cur: string, inQuotes: bool)
    requires '\n' !in s && '\n' !in cur
    ensures forall field :: field in ParseFrom(s, cur, inQuotes) ==> '\n' !in field
    decreases |s|
  {
    if s == [] {
    } else if inQuotes && s[0] != '"' {
      FieldsHaveNoFeed(s[1..], cur + [s[0]], true);
    } else if inQuotes && |s| > 1 && s[1] == '"' {
      FieldsHaveNoFeed(s[2..], cur + "\"", true);
    } else if inQuotes {
      FieldsHaveNoFeed(s[1..], cur, false);
    } else if s[0] == '"' {
      FieldsHaveNoFeed(s[1..], cur, true);
    } else if s[0] == ',' {
      FieldsHaveNoFeed(s[1..], [], false);
    } else {
      FieldsHaveNoFeed(s[1..], cur + [s[0]], false);
    }
  }

  predicate AllTrimmed(row: seq<string>) {
    forall k :: 0 <= k < |row| ==> Trimmed(row[k])
  }

  /** Whatever is uploaded, the rows have fields, trimmed and without line feeds. */
  lemma ReadRows(text: string, k: nat)
    requires k < |KeptLines(text)|
    ensures var row := ReadAll(KeptLines(text))[k]; FitsOneLine(row) && AllTrimmed(row)
  {
    var line := KeptLines(text)[k];
    assert line in KeptLines(text);
    LinesHaveNoFeed(text, []);
    var lines := Lines(text);
    var j :| 0 <= j < |lines| && TrimAll(lines)[j] == line;
    assert '\n' !in lines[j];
    FieldsHaveNoFeed(line, [], false);
    var fields := ParseRow(line);
    forall i | 0 <= i < |fields| ensures '\n' !in Trim(fields[i]) { assert fields[i] in fields; }
  }

  lemma {:induction false} AllKept(lines: seq<string>)
    ensures |NonBlank(lines)| == |lines| <==> forall k :: 0 <= k < |lines| ==> lines[k] != []
    ensures |NonBlank(lines)| == |lines| ==> NonBlank(lines) == lines
  {
    if lines != [] {
      AllKept(lines[1..]);
      assert forall k :: 1 <= k < |lines| ==> lines[k] == lines[1..][k - 1];
    }
  }

  // ── Printed rows under trimming ──

  lemma EscapeTrimmed(value: string)
    requires Trimmed(value)
    ensures Trimmed(Escape(value))
    ensures Escape(value) == [] ==> value == []
  {
  }

  lemma {:induction false} RowTrimmed(row: seq<string>)
    requires row != [] && AllTrimmed(row)
    ensures Trimmed(PrintRow(row))
    ensures PrintRow(row) == [] <==> row == [""]
  {
    EscapeTrimmed(row[0]);
    if |row| > 1 {
      RowTrimmed(row[1..]);
      assert EscapeAll(row)[1..] == EscapeAll(row[1..]);
      assert PrintRow(row) == Escape(row[0]) + ([','] + PrintRow(row[1..]));
    } else {
      assert row == [row[0]] && PrintRow(row) == Escape(row[0]);
      EmptyField();
    }
  }

  lemma EmptyField()
    ensures Escape("") == ""
  {
  }

  /** A row with at least one field, not the single empty one, and all its fields on one line and
      trimmed. */
  predicate Clean(row: seq<string>) {
    FitsOneLine(row) && row != [""] && AllTrimmed(row)
  }

  lemma TrimmedFileHasNoMark(rows: seq<seq<string>>)
    requires forall k :: 0 <= k < |rows| ==> rows[k] != [] && AllTrimmed(rows[k])
    ensures StripMark(ToCsv(rows)) == ToCsv(rows)
  {
    if rows != [] {
      RowTrimmed(rows[0]);
      if |rows| > 1 {
        assert ToCsv(rows) == PrintRow(rows[0]) + (['\n'] + Join(PrintAll(rows)[1..], '\n'));
      } else {
        assert PrintAll(rows) == [PrintRow(rows[0])];
      }
    }
  }

  /** Rows whose lines are all kept as they are. */
  lemma LinesKept(rows: seq<seq<string>>)
    requires rows != [] && forall k :: 0 <= k < |rows| ==> FitsOneLine(rows[k]) && AllTrimmed(rows[k])
    ensures TrimAll(Lines(ToCsv(rows))) == PrintAll(rows)
    ensures (forall k :: 0 <= k < |rows| ==> rows[k] != [""]) <==> |KeptLines(ToCsv(rows))| == |rows|
    ensures (forall k :: 0 <= k < |rows| ==> rows[k] != [""]) ==> KeptLines(ToCsv(rows)) == PrintAll(rows)
  {
    FeedsInAllIff(rows);
    LinesOfFile(rows);
    forall k: nat | k < |rows|
      ensures Trim(PrintAll(rows)[k]) == PrintAll(rows)[k] && (PrintAll(rows)[k] == [] <==> rows[k] == [""])
    {
      PrintedAt(rows, k);
      RowTrimmed(rows[k]);
    }
    AllKept(PrintAll(rows));
  }

  lemma TrimmedRow(row: seq<string>)
    requires AllTrimmed(row)
    ensures TrimAll(row) == row
  {
  }

  lemma CleanRowComesBack(rows: seq<seq<string>>, k: nat)
    requires k < |rows| && Clean(rows[k])
    ensures ReadAll(PrintAll(rows))[k] == rows[k]
  {
    PrintedAt(rows, k);
    RowRoundTrip(rows[k]);
    TrimmedRow(rows[k]);
  }

  lemma CleanRowsComeBack(rows: seq<seq<string>>)
    requires forall k :: 0 <= k < |rows| ==> Clean(rows[k])
    ensures ReadAll(PrintAll(rows)) == rows
  {
    var read := ReadAll(PrintAll(rows));
    forall k: nat | k < |rows| ensures read[k] == rows[k] { CleanRowComesBack(rows, k); }
  }

  /** The text as it is read: a downloaded file with its byte order mark, or the same without. */
  predicate IsFileOf(text: string, rows: seq<seq<string>>) {
    text == ToCsv(rows) || text == [MARK] + ToCsv(rows)
  }

  lemma FileRead(text: string, rows: seq<seq<string>>)
    requires IsFileOf(text, rows) && forall k :: 0 <= k < |rows| ==> FitsOneLine(rows[k]) && AllTrimmed(rows[k])
    ensures StripMark(text) == ToCsv(rows)
  {
    TrimmedFileHasNoMark(rows);
  }

  lemma UploadedRows(text: string, rows: seq<seq<string>>)
    requires Upload(text) == Some(rows)
    ensures |rows| >= 2 && |KeptLines(StripMark(text))| == |rows|
    ensures forall k :: 0 <= k < |rows| ==> FitsOneLine(rows[k]) && AllTrimmed(rows[k])
  {
    forall k: nat | k < |rows| ensures FitsOneLine(rows[k]) && AllTrimmed(rows[k]) {
      ReadRows(StripMark(text), k);
    }
  }

  /** A file is read back by the upload exactly when it has a header and a row, and every row has a
      field, is not one empty field, and has only trimmed fields without line feeds. */
  lemma FileRoundTripIff(text: string, rows: seq<seq<string>>)
    requires IsFileOf(text, rows)
    ensures Upload(text) == Some(rows) <==> |rows| >= 2 && forall k :: 0 <= k < |rows| ==> Clean(rows[k])
  {
    if Upload(text) == Some(rows) {
      UploadedRows(text, rows);
      FileRead(text, rows);
      LinesKept(rows);
    }
    if |rows| >= 2 && forall k :: 0 <= k < |rows| ==> Clean(rows[k]) {
      FileRead(text, rows);
      LinesKept(rows);
      CleanRowsComeBack(rows);
    }
  }
}
