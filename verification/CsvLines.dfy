/** Text without quotes: lines of fields between commas, with any of the three line ends. */
module CsvLines {
  import opened CsvCodec

  datatype Line = Line(fields: seq<string>, end: string)

  predicate Plain(field: string)
  {
    forall i :: 0 <= i < |field| ==> field[i] != ',' && field[i] != '"' && field[i] != '\r' && field[i] != '\n'
  }

  predicate PlainLine(line: Line)
  {
    && line.fields != [] && (forall i :: 0 <= i < |line.fields| ==> Plain(line.fields[i]))
    && (line.end == "\n" || line.end == "\r" || line.end == "\r\n")
  }

  predicate AllPlain(lines: seq<Line>)
  {
    forall i :: 0 <= i < |lines| ==> PlainLine(lines[i])
  }

  function Joined(fields: seq<string>): string
    requires fields != []
  {
    if |fields| == 1 then fields[0] else Joined(fields[..|fields| - 1]) + "," + fields[|fields| - 1]
  }

  function LineText(line: Line): string
    requires line.fields != []
  {
    Joined(line.fields) + line.end
  }

  /** The first k lines. */
  function Text(lines: seq<Line>, k: nat): string
    requires k <= |lines| && AllPlain(lines)
  {
    if k == 0 then "" else Text(lines, k - 1) + LineText(lines[k - 1])
  }

  /** No CR that ends a line is followed by an LF, with which it would make one line end. */
  predicate Separate(lines: seq<Line>)
    requires AllPlain(lines)
  {
    forall i :: 0 <= i < |lines| - 1 && lines[i].end == "\r" && LineText(lines[i + 1]) != "" ==> LineText(lines[i + 1])[0] != '\n'
  }

  lemma {:induction false} JoinedIsPrinted(fields: seq<string>, k: nat)
    requires 0 < k <= |fields| && forall i :: 0 <= i < |fields| ==> Plain(fields[i])
    ensures PrintFields(fields, k) == Joined(fields[..k])
  {
    assert !NeedsQuote(fields[k - 1]);
    if k == 1 {
      FirstField(fields);
      assert fields[..1] == [fields[0]];
    } else {
      JoinedIsPrinted(fields, k - 1);
      assert fields[..k][..k - 1] == fields[..k - 1];
    }
  }

  lemma {:induction false} PlainFolds(fields: seq<string>, k: nat)
    requires k <= |fields| && forall i :: 0 <= i < |fields| ==> Plain(fields[i])
    ensures FoldFields(fields, k) == fields[..k]
  {
    if k > 0 {
      PlainFolds(fields, k - 1);
      FoldPlain(fields[k - 1]);
      hide Fold;
    }
  }

  /** One line, read from between two records. */
  lemma ScanLine(text: string, i: nat, line: Line, c: Cursor)
    requires PlainLine(line) && At(text, i, LineText(line)) && !c.inQuote && c.field == "" && c.row == []
    requires line.end == "\r" ==> !Next(text, i + |Joined(line.fields)|, '\n')
    ensures Scan(text, i, c) == Scan(text, i + |LineText(line)|, c.(rows := c.rows + [line.fields]))
  {
    var row, n := line.fields, |line.fields|;
    hide At, Scan, Fold, PrintFields, Joined;
    AtSplit(text, i, Joined(row), line.end);
    JoinedIsPrinted(row, n);
    assert row[..n] == row;
    PlainFolds(row, n);
    var j := i + |Joined(row)|;
    LineEndAt(text, j, line);
    ScanFields(text, i, row, n, c);
    var mid := AfterFields(c, row, n);
    LastFolds(row);
    assert mid.row + [mid.field] == row;
    ScanEnd(text, j, line, mid);
  }

  lemma LastFolds(row: seq<string>)
    requires row != [] && forall i :: 0 <= i < |row| ==> Plain(row[i])
    ensures FoldFields(row, |row| - 1) + [Fold(row[|row| - 1])] == row
  {
    hide Fold, FoldFields, Plain;
    var n := |row| - 1;
    PlainFolds(row, n);
    FoldIsPlain(row[n]);
    assert row == row[..n] + [row[n]];
  }

  lemma FoldIsPlain(field: string)
    requires Plain(field)
    ensures Fold(field) == field
  {
    FoldPlain(field);
  }

  lemma LineEndAt(text: string, j: nat, line: Line)
    requires PlainLine(line) && At(text, j, line.end)
    ensures j < |text| && text[j] == line.end[0] && text[j] != '"'
    ensures line.end == "\r\n" ==> Next(text, j, '\n')
  {
    AtChar(text, j, line.end);
  }

  lemma ScanEnd(text: string, j: nat, line: Line, c: Cursor)
    requires PlainLine(line) && At(text, j, line.end) && !c.inQuote
    requires line.end == "\r" ==> !Next(text, j, '\n')
    ensures Scan(text, j, c) == Scan(text, j + |line.end|, EndRecord(c))
  {
    LineEndAt(text, j, line);
    ScanOne(text, j, c);
    hide Scan, At;
  }

  lemma {:induction false} ScanLines(text: string, lines: seq<Line>, k: nat)
    requires AllPlain(lines) && Separate(lines)
    requires k <= |lines| && text == Text(lines, |lines|) && At(text, 0, Text(lines, k))
    ensures Scan(text, 0, START) == Scan(text, |Text(lines, k)|, START.(rows := FieldsOf(lines, k)))
  {
    hide At, Scan, Separate, LineText;
    if k > 0 {
      AtSplit(text, 0, Text(lines, k - 1), LineText(lines[k - 1]));
      ScanLines(text, lines, k - 1);
      NoLineFeedAfter(text, lines, k);
      ScanLine(text, |Text(lines, k - 1)|, lines[k - 1], START.(rows := FieldsOf(lines, k - 1)));
    }
  }

  function FieldsOf(lines: seq<Line>, k: nat): (rows: seq<seq<string>>)
    requires k <= |lines|
    ensures |rows| == k && forall i :: 0 <= i < k ==> rows[i] == lines[i].fields
  {
    if k == 0 then [] else FieldsOf(lines, k - 1) + [lines[k - 1].fields]
  }

  lemma {:induction false} TextGoesOn(lines: seq<Line>, k: nat, n: nat)
    requires k < n <= |lines| && AllPlain(lines)
    ensures |Text(lines, k)| + |LineText(lines[k])| <= |Text(lines, n)|
    ensures Text(lines, n)[|Text(lines, k)|..][..|LineText(lines[k])|] == LineText(lines[k])
    decreases n
  {
    hide LineText;
    if n == k + 1 {
      assert Text(lines, n)[|Text(lines, k)|..] == LineText(lines[k]);
    } else {
      TextGoesOn(lines, k, n - 1);
      var a, b, x := Text(lines, n - 1), LineText(lines[n - 1]), |Text(lines, k)|;
      assert (a + b)[x..][..|LineText(lines[k])|] == a[x..][..|LineText(lines[k])|];
    }
  }

  /** After a CR that ends line k - 1 there is no LF. */
  lemma NoLineFeedAfter(text: string, lines: seq<Line>, k: nat)
    requires AllPlain(lines) && Separate(lines)
    requires 0 < k <= |lines| && text == Text(lines, |lines|)
    ensures lines[k - 1].end == "\r" ==> !Next(text, |Text(lines, k - 1)| + |Joined(lines[k - 1].fields)|, '\n')
  {
    var last := lines[k - 1];
    if last.end == "\r" {
      assert |Text(lines, k)| == |Text(lines, k - 1)| + |Joined(last.fields)| + 1;
      if k < |lines| {
        TextGoesOn(lines, k, |lines|);
        var line := LineText(lines[k]);
        assert line != "" by { assert lines[k].end != ""; }
        assert text[|Text(lines, k)|..][..|line|][0] == line[0];
      }
    }
  }

  /** Text without quotes is read as its lines and the fields between their commas. */
  lemma PlainTextIsRead(lines: seq<Line>)
    requires AllPlain(lines) && Separate(lines)
    ensures Parse(Text(lines, |lines|)) == FieldsOf(lines, |lines|)
  {
    var text := Text(lines, |lines|);
    hide Text, FieldsOf, Separate, AllPlain;
    assert text[0..|text|] == text;
    ScanLines(text, lines, |lines|);
  }

  /** The lines that a table is printed as. */
  function PrintedLines(rows: seq<seq<string>>): (lines: seq<Line>)
    ensures |lines| == |rows| && forall i :: 0 <= i < |rows| ==> lines[i] == Line(rows[i], "\r\n")
  {
    seq(|rows|, i requires 0 <= i < |rows| => Line(rows[i], "\r\n"))
  }

  /** Fields are quoted only when they need it: a table of plain fields is printed as they are, with commas and CR LF. */
  lemma {:induction false} PlainTableIsPrinted(rows: seq<seq<string>>, k: nat)
    requires AllPlain(PrintedLines(rows)) && k <= |rows|
    ensures Print(rows, k) == Text(PrintedLines(rows), k)
  {
    hide PrintFields, Joined, Plain;
    if k > 0 {
      PlainTableIsPrinted(rows, k - 1);
      var row := rows[k - 1];
      assert PlainLine(PrintedLines(rows)[k - 1]);
      JoinedIsPrinted(row, |row|);
      assert row[..|row|] == row;
    }
  }
}
