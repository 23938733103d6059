/**
 * CSV fields, rows and files: the printer used for downloads and the index-skipping parser used for
 * uploads of the same layout.
 */
module Csv {
  // ── Printing ──

  predicate Special(c: char) {
    c == '"' || c == ',' || c == '\n' || c == '\r'
  }

  predicate NeedsQuotes(value: string) {
    exists i :: 0 <= i < |value| && Special(value[i])
  }

  function DoubleQuotes(value: string): string {
    if value == [] then []
    else if value[0] == '"' then "\"\"" + DoubleQuotes(value[1..])
    else [value[0]] + DoubleQuotes(value[1..])
  }

  function Escape(value: string): string {
    if NeedsQuotes(value) then "\"" + (DoubleQuotes(value) + "\"") else value
  }

  function Join(parts: seq<string>, separator: char): string {
    if parts == [] then []
    else if |parts| == 1 then parts[0]
    else parts[0] + ([separator] + Join(parts[1..], separator))
  }

  function EscapeAll(row: seq<string>): (r: seq<string>)
    ensures |r| == |row|
  {
    if row == [] then [] else [Escape(row[0])] + EscapeAll(row[1..])
  }

  function PrintRow(row: seq<string>): string {
    Join(EscapeAll(row), ',')
  }

  function PrintAll(rows: seq<seq<string>>): (r: seq<string>)
    ensures |r| == |rows|
  {
    if rows == [] then [] else [PrintRow(rows[0])] + PrintAll(rows[1..])
  }

  function ToCsv(rows: seq<seq<string>>): string {
    Join(PrintAll(rows), '\n')
  }

  // ── Parsing ──

  /** The fields still to come when `cur` is the field read so far and `s` is left to read. */
  function ParseFrom(s: string, cur: string, inQuotes: bool): (fields: seq<string>)
    ensures fields != []
    decreases |s|
  {
    if s == [] then [cur]
    else if inQuotes then
      if s[0] != '"' then ParseFrom(s[1..], cur + [s[0]], true)
      else if |s| > 1 && s[1] == '"' then ParseFrom(s[2..], cur + "\"", true)
      else ParseFrom(s[1..], cur, false)
    else if s[0] == '"' then ParseFrom(s[1..], cur, true)
    else if s[0] == ',' then [cur] + ParseFrom(s[1..], [], false)
    else ParseFrom(s[1..], cur + [s[0]], false)
  }

  function ParseRow(line: string): seq<string> {
    ParseFrom(line, [], false)
  }

  lemma PushField(result: seq<string>, cur: string, rest: seq<string>)
    ensures result + ([cur] + rest) == (result + [cur]) + rest
  {
  }

  /** The loop of the parser, its index jumping over the second of two quotes. */
  method ParseCsvLine(line: string) returns (result: seq<string>)
    ensures result == ParseRow(line)
  {
    result := [];
    var cur, inQuotes := "", false;
    var i := 0;
    while i < |line|
      invariant i <= |line|
      invariant ParseRow(line) == result + ParseFrom(line[i..], cur, inQuotes)
      decreases |line| - i
    {
      var c := line[i];
      assert line[i..][0] == c && line[i..][1..] == line[i + 1..];
      if inQuotes {
        if c == '"' {
          if i + 1 < |line| && line[i + 1] == '"' {
            assert line[i..][1] == '"' && line[i..][2..] == line[i + 2..];
            cur := cur + "\"";
            i := i + 1;
          } else {
            inQuotes := false;
          }
        } else {
          cur := cur + [c];
        }
      } else if c == '"' {
        inQuotes := true;
      } else if c == ',' {
        PushField(result, cur, ParseFrom(line[i + 1..], [], false));
        result := result + [cur];
        cur := "";
      } else {
        cur := cur + [c];
      }
      i := i + 1;
    }
    result := result + [cur];
  }

  // ── One row ──

  predicate StartsWithQuote(s: string) {
    s != [] && s[0] == '"'
  }

  lemma {:induction false} PlainField(value: string, rest: string, cur: string)
    requires !NeedsQuotes(value)
    ensures ParseFrom(value + rest, cur, false) == ParseFrom(rest, cur + value, false)
    decreases |value|
  {
    if value == [] {
      assert value + rest == rest && cur + value == cur;
    } else {
      assert !Special(value[0]);
      assert !NeedsQuotes(value[1..]) by {
        forall i | 0 <= i < |value[1..]| ensures !Special(value[1..][i]) { assert !Special(value[i + 1]); }
      }
      PlainField(value[1..], rest, cur + [value[0]]);
      assert (value + rest)[1..] == value[1..] + rest;
      assert cur + [value[0]] + value[1..] == cur + value;
    }
  }

  lemma {:induction false} QuotedField(value: string, rest: string, cur: string)
    requires !StartsWithQuote(rest)
    ensures ParseFrom(DoubleQuotes(value) + ("\"" + rest), cur, true) == ParseFrom(rest, cur + value, false)
    decreases |value|
  {
    var s := DoubleQuotes(value) + ("\"" + rest);
    if value == [] {
      assert s == "\"" + rest && s[1..] == rest && cur + value == cur;
    } else {
      var tail := DoubleQuotes(value[1..]) + ("\"" + rest);
      QuotedField(value[1..], rest, cur + [value[0]]);
      assert cur + [value[0]] + value[1..] == cur + value;
      if value[0] == '"' {
        assert s == "\"\"" + tail && s[2..] == tail;
      } else {
        assert s == [value[0]] + tail && s[1..] == tail;
      }
    }
  }

  /** A printed field is read back, whether a comma follows or the line ends. */
  lemma FieldRoundTrip(value: string, rest: string)
    requires !StartsWithQuote(rest)
    ensures ParseFrom(Escape(value) + rest, [], false) == ParseFrom(rest, value, false)
  {
    assert [] + value == value;
    if NeedsQuotes(value) {
      QuotedField(value, rest, []);
      var body := DoubleQuotes(value) + ("\"" + rest);
      assert Escape(value) + rest == "\"" + body && ("\"" + body)[1..] == body;
    } else {
      PlainField(value, rest, []);
    }
  }

  /** Section 2 of RFC 4180: a row comes back from its line, whatever its fields hold. */
  lemma {:induction false} RowRoundTrip(row: seq<string>)
    requires row != []
    ensures ParseRow(PrintRow(row)) == row
    decreases |row|
  {
    var value := row[0];
    if |row| == 1 {
      FieldRoundTrip(value, []);
      assert Escape(value) + [] == Escape(value);
    } else {
      var line := PrintRow(row[1..]);
      FieldRoundTrip(value, "," + line);
      RowRoundTrip(row[1..]);
      assert ("," + line)[1..] == line;
      assert EscapeAll(row)[1..] == EscapeAll(row[1..]);
    }
  }

  /** Only the row without fields is not read back: its line is that of a row with one empty field. */
  lemma RowRoundTripIff(row: seq<string>)
    ensures ParseRow(PrintRow(row)) == row <==> row != []
  {
    if row != [] { RowRoundTrip(row); }
  }

  /** Two rows print alike only when they are equal, or are the two that print as an empty line. */
  lemma PrintRowInjective(a: seq<string>, b: seq<string>)
    ensures PrintRow(a) == PrintRow(b) <==> a == b || (a in [[], [""]] && b in [[], [""]])
  {
    if a != [] { RowRoundTrip(a); }
    if b != [] { RowRoundTrip(b); }
    assert PrintRow([]) == [];
    assert PrintRow([""]) == [] by { assert EscapeAll([""]) == [""]; }
    RowRoundTrip([""]);
  }
}
