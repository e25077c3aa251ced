/** CSV text: a parser with a quote state, and the printer of RFC 4180. */
module CsvCodec {

  /** What the parser has read: finished records, finished fields of the current record, and the current field. */
  datatype Cursor = Cursor(rows: seq<seq<string>>, row: seq<string>, field: string, inQuote: bool)

  const START := Cursor([], [], "", false)

  predicate Next(text: string, i: nat, c: char)
  {
    i + 1 < |text| && text[i + 1] == c
  }

  function EndField(c: Cursor): Cursor
  {
    c.(row := c.row + [c.field], field := "")
  }

  function EndRecord(c: Cursor): Cursor
  {
    c.(rows := c.rows + [c.row + [c.field]], row := [], field := "")
  }

  function Append(c: Cursor, s: string): Cursor
  {
    c.(field := c.field + s)
  }

  /** Read one character, or two of them that belong together, at position i. */
  function Step(text: string, i: nat, c: Cursor): (r: (nat, Cursor))
    requires i < |text|
    ensures r.0 > i
  {
    if c.inQuote then
      if text[i] == '"' then
        if Next(text, i, '"') then (i + 2, Append(c, "\"")) else (i + 1, c.(inQuote := false))
      else if text[i] == '\r' && Next(text, i, '\n') then (i + 2, Append(c, "\n"))
      else (i + 1, Append(c, [text[i]]))
    else if text[i] == '"' then (i + 1, c.(inQuote := true))
    else if text[i] == ',' then (i + 1, EndField(c))
    else if text[i] == '\n' then (i + 1, EndRecord(c))
    else if text[i] == '\r' then (if Next(text, i, '\n') then i + 2 else i + 1, EndRecord(c))
    else (i + 1, Append(c, [text[i]]))
  }

  /** Read the text from position i on. */
  function Scan(text: string, i: nat, c: Cursor): Cursor
    decreases |text| - i
  {
    if i >= |text| then c
    else
      var (j, next) := Step(text, i, c);
      Scan(text, j, next)
  }

  /** A last record without a line end counts as well. */
  function Flush(c: Cursor): seq<seq<string>>
  {
    if c.field != "" || c.row != [] then EndRecord(c).rows else c.rows
  }

  function Parse(text: string): seq<seq<string>>
  {
    Flush(Scan(text, 0, START))
  }

  method ParseCsv(text: string) returns (rows: seq<seq<string>>)
    ensures rows == Parse(text)
  {
    rows := [];
    if text == "" {
      return;
    }
    var row: seq<string>, field: string := [], "";
    var inQuote := false;
    var i, n := 0, |text|;
    while i < n
      invariant Scan(text, i, Cursor(rows, row, field, inQuote)) == Scan(text, 0, START)
    {
      var c := text[i];
      if inQuote {
        if c == '"' {
          if i + 1 < n && text[i + 1] == '"' {
            field := field + "\"";
            i := i + 2;
          } else {
            inQuote := false;
            i := i + 1;
          }
        } else if c == '\r' && i + 1 < n && text[i + 1] == '\n' {
          field := field + "\n";
          i := i + 2;
        } else {
          field := field + [c];
          i := i + 1;
        }
      } else if c == '"' {
        inQuote := true;
        i := i + 1;
      } else if c == ',' {
        row := row + [field];
        field := "";
        i := i + 1;
      } else if c == '\n' || (c == '\r' && i + 1 < n && text[i + 1] == '\n') {
        row := row + [field];
        field := "";
        rows := rows + [row];
        row := [];
        i := i + if c == '\r' then 2 else 1;
      } else if c == '\r' {
        row := row + [field];
        field := "";
        rows := rows + [row];
        row := [];
        i := i + 1;
      } else {
        field := field + [c];
        i := i + 1;
      }
    }
    if field != "" || row != [] {
      row := row + [field];
      rows := rows + [row];
    }
  }

  // ----- printing

  predicate Special(c: char)
  {
    c == ',' || c == '"' || c == '\r' || c == '\n'
  }

  predicate NeedsQuote(field: string)
  {
    exists i :: 0 <= i < |field| && Special(field[i])
  }

  /** Every double quote doubled. */
  function Escaped(field: string): string
  {
    if field == "" then ""
    else (if field[0] == '"' then "\"\"" else [field[0]]) + Escaped(field[1..])
  }

  function PrintField(field: string): string
  {
    if NeedsQuote(field) then "\"" + Escaped(field) + "\"" else field
  }

  /** The first k fields, separated by commas. */
  function PrintFields(row: seq<string>, k: nat): string
    requires k <= |row|
  {
    if k == 0 then "" else PrintFields(row, k - 1) + (if k > 1 then "," else "") + PrintField(row[k - 1])
  }

  function PrintRow(row: seq<string>): string
  {
    PrintFields(row, |row|) + "\r\n"
  }

  function Print(rows: seq<seq<string>>, k: nat): string
    requires k <= |rows|
  {
    if k == 0 then "" else Print(rows, k - 1) + PrintRow(rows[k - 1])
  }

  method BuildCsv(rows: seq<seq<string>>) returns (out: string)
    ensures out == Print(rows, |rows|)
  {
    out := "";
    for k := 0 to |rows|
      invariant out == Print(rows, k)
    {
      hide PrintField;
      var row := rows[k];
      out := AppendFields(out, row);
      out := out + "\r\n";
      assert out == Print(rows, k) + (PrintFields(row, |row|) + "\r\n");
    }
  }

  method AppendFields(before: string, row: seq<string>) returns (out: string)
    ensures out == before + PrintFields(row, |row|)
  {
    hide PrintField;
    out := before;
    var firstField := true;
    for f := 0 to |row|
      invariant firstField <==> f == 0
      invariant out == before + PrintFields(row, f)
    {
      ghost var printed := PrintFields(row, f) + (if f > 0 then "," else "");
      if !firstField {
        out := out + ",";
      }
      firstField := false;
      assert out == before + printed;
      out := AppendField(out, row[f]);
      assert out == before + (printed + PrintField(row[f]));
    }
  }

  method AppendField(before: string, field: string) returns (out: string)
    ensures out == before + PrintField(field)
  {
    out := before;
    if NeedsQuote(field) {
      out := out + "\"";
      for j := 0 to |field|
        invariant out + Escaped(field[j..]) == before + "\"" + Escaped(field)
      {
        assert field[j..][0] == field[j] && field[j..][1..] == field[j + 1..];
        if field[j] == '"' {
          out := out + "\"";
        }
        out := out + [field[j]];
      }
      assert out == before + "\"" + Escaped(field);
      out := out + "\"";
      assert out == before + ("\"" + Escaped(field) + "\"");
    } else {
      out := out + field;
    }
  }

  // ----- reading back what was printed

  /** CR LF folded to LF, which is how the parser reads quoted text. */
  function Fold(s: string): string
  {
    if s == "" then ""
    else if s[0] == '\r' && |s| > 1 && s[1] == '\n' then "\n" + Fold(s[2..])
    else [s[0]] + Fold(s[1..])
  }

  /** The text continues with s at position i. */
  predicate At(text: string, i: nat, s: string)
  {
    i + |s| <= |text| && text[i..i + |s|] == s
  }

  lemma AtSplit(text: string, i: nat, a: string, b: string)
    requires At(text, i, a + b)
    ensures At(text, i, a) && At(text, i + |a|, b)
  {
    var s := text[i..i + |a + b|];
    assert s[..|a|] == a && s[|a|..] == b;
    assert text[i..i + |a|] == s[..|a|] && text[i + |a|..i + |a + b|] == s[|a|..];
  }

  lemma AtChar(text: string, i: nat, s: string)
    requires At(text, i, s) && s != ""
    ensures i < |text| && text[i] == s[0] && At(text, i + 1, s[1..])
    ensures |s| > 1 ==> i + 1 < |text| && text[i + 1] == s[1]
  {
    assert text[i..i + |s|][0] == text[i];
    assert text[i..i + |s|][1..] == text[i + 1..i + |s|];
    if |s| > 1 {
      assert text[i..i + |s|][1] == text[i + 1];
    }
  }

  lemma {:induction false} ScanPlain(text: string, i: nat, s: string, c: Cursor)
    requires At(text, i, s) && !c.inQuote && forall j :: 0 <= j < |s| ==> !Special(s[j])
    ensures Scan(text, i, c) == Scan(text, i + |s|, Append(c, s))
    decreases |s|
  {
    if s == "" {
      assert Append(c, s) == c;
    } else {
      AtChar(text, i, s);
      var next := Append(c, [s[0]]);
      assert !Special(s[0]);
      ScanPlain(text, i + 1, s[1..], next);
      assert Append(next, s[1..]) == Append(c, s) by {
        assert s == [s[0]] + s[1..];
        assert (c.field + [s[0]]) + s[1..] == c.field + s;
      }
    }
  }

  lemma AppendTwice(c: Cursor, a: string, b: string)
    ensures Append(Append(c, a), b) == Append(c, a + b)
  {
    assert (c.field + a) + b == c.field + (a + b);
  }

  lemma ScanOne(text: string, i: nat, c: Cursor)
    requires i < |text|
    ensures Scan(text, i, c) == Scan(text, Step(text, i, c).0, Step(text, i, c).1)
  {
  }

  /** How many characters of quoted text the parser takes at once, and what it makes of them. */
  function Taken(s: string): nat
    requires s != ""
  {
    if s[0] == '\r' && |s| > 1 && s[1] == '\n' then 2 else 1
  }

  function Made(s: string): string
    requires s != ""
  {
    if Taken(s) == 2 then "\n" else [s[0]]
  }

  function Shown(s: string): string
    requires s != ""
  {
    if Taken(s) == 2 then "\r\n" else if s[0] == '"' then "\"\"" else [s[0]]
  }

  lemma EscapedTaken(s: string)
    requires s != ""
    ensures Taken(s) <= |s| && Escaped(s) == Shown(s) + Escaped(s[Taken(s)..])
  {
    if Taken(s) == 2 {
      EscapedPair(s);
    }
  }

  lemma EscapedPair(s: string)
    requires s != "" && Taken(s) == 2
    ensures Escaped(s) == "\r\n" + Escaped(s[2..])
  {
    var tail := s[1..];
    assert tail[0] == '\n' && tail[1..] == s[2..];
    assert Escaped(tail) == ['\n'] + Escaped(s[2..]);
    assert Escaped(s) == ['\r'] + Escaped(tail);
  }

  lemma FoldTaken(s: string)
    requires s != ""
    ensures Taken(s) <= |s| && Fold(s) == Made(s) + Fold(s[Taken(s)..])
  {
  }

  lemma EscapedStart(s: string)
    ensures Escaped(s) + "\"" != "" && (Escaped(s) + "\"")[0] == if s == "" then '"' else s[0]
  {
  }

  /** One step through quoted text. */
  lemma StepQuoted(text: string, i: nat, s: string, c: Cursor)
    requires s != "" && At(text, i, Escaped(s) + "\"") && c.inQuote
    ensures i < |text| && Taken(s) <= |s|
    ensures Step(text, i, c) == (i + |Shown(s)|, Append(c, Made(s)))
    ensures At(text, i + |Shown(s)|, Escaped(s[Taken(s)..]) + "\"")
  {
    EscapedTaken(s);
    var rest := Escaped(s[Taken(s)..]) + "\"";
    assert Escaped(s) + "\"" == Shown(s) + rest;
    AtSplit(text, i, Shown(s), rest);
    AtChar(text, i, Shown(s));
    AtChar(text, i + |Shown(s)|, rest);
    EscapedStart(s[Taken(s)..]);
    hide At, Escaped;
  }

  /** Escaped text up to the closing quote reads as the text with CR LF folded. */
  lemma {:induction false} ScanQuoted(text: string, i: nat, s: string, c: Cursor)
    requires At(text, i, Escaped(s) + "\"") && c.inQuote && !Next(text, i + |Escaped(s)|, '"')
    ensures Scan(text, i, c) == Scan(text, i + |Escaped(s)| + 1, Append(c, Fold(s)).(inQuote := false))
    decreases |s|
  {
    hide At, Scan;
    if s == "" {
      assert Escaped(s) + "\"" == "\"";
      AtChar(text, i, "\"");
      assert Append(c, "") == c;
      ScanOne(text, i, c);
    } else {
      StepQuoted(text, i, s, c);
      EscapedTaken(s);
      FoldTaken(s);
      hide Escaped, Fold, Step, Shown, Made, Next;
      ScanOne(text, i, c);
      var rest := s[Taken(s)..];
      ScanQuoted(text, i + |Shown(s)|, rest, Append(c, Made(s)));
      AppendTwice(c, Made(s), Fold(rest));
    }
  }

  lemma {:induction false} FoldPlain(s: string)
    requires forall j :: 0 <= j < |s| ==> !Special(s[j])
    ensures Fold(s) == s
  {
    if s != "" {
      assert !Special(s[0]);
      FoldPlain(s[1..]);
      assert s == [s[0]] + s[1..];
    }
  }

  /** A printed field that is followed by a separator. */
  lemma ScanField(text: string, i: nat, field: string, c: Cursor)
    requires At(text, i, PrintField(field)) && !c.inQuote && c.field == ""
    requires var j := i + |PrintField(field)|; j < |text| && text[j] != '"'
    ensures Scan(text, i, c) == Scan(text, i + |PrintField(field)|, c.(field := Fold(field)))
  {
    if NeedsQuote(field) {
      AtSplit(text, i, "\"", Escaped(field) + "\"");
      assert PrintField(field) == "\"" + (Escaped(field) + "\"");
      AtChar(text, i, PrintField(field));
      var inside := c.(inQuote := true);
      ScanQuoted(text, i + 1, field, inside);
      assert Append(inside, Fold(field)).(inQuote := false) == c.(field := Fold(field));
    } else {
      FoldPlain(field);
      ScanPlain(text, i, field, c);
      assert Append(c, field) == c.(field := Fold(field));
    }
  }

  function FoldFields(row: seq<string>, k: nat): (r: seq<string>)
    requires k <= |row|
    ensures |r| == k && forall i :: 0 <= i < k ==> r[i] == Fold(row[i])
  {
    if k == 0 then [] else FoldFields(row, k - 1) + [Fold(row[k - 1])]
  }

  /** How a printed record reads: a record without fields comes back as one empty field. */
  function Normalized(row: seq<string>): seq<string>
  {
    if row == [] then [""] else FoldFields(row, |row|)
  }

  function NormalizedRows(rows: seq<seq<string>>, k: nat): (r: seq<seq<string>>)
    requires k <= |rows|
    ensures |r| == k && forall i :: 0 <= i < k ==> r[i] == Normalized(rows[i])
  {
    if k == 0 then [] else NormalizedRows(rows, k - 1) + [Normalized(rows[k - 1])]
  }

  lemma ScanComma(text: string, i: nat, c: Cursor)
    requires At(text, i, ",") && !c.inQuote
    ensures Scan(text, i, c) == Scan(text, i + 1, EndField(c))
  {
    AtChar(text, i, ",");
  }

  lemma ScanLineEnd(text: string, i: nat, c: Cursor)
    requires At(text, i, "\r\n") && !c.inQuote
    ensures i < |text| && text[i] == '\r'
    ensures Scan(text, i, c) == Scan(text, i + 2, EndRecord(c))
  {
    AtChar(text, i, "\r\n");
  }

  lemma FirstField(row: seq<string>)
    requires row != []
    ensures PrintFields(row, 1) == PrintField(row[0])
  {
    assert PrintFields(row, 1) == "" + "" + PrintField(row[0]);
  }

  /** The cursor after the first k fields of a record, before the separator that follows them. */
  function AfterFields(c: Cursor, row: seq<string>, k: nat): Cursor
    requires 0 < k <= |row|
  {
    c.(row := FoldFields(row, k - 1), field := Fold(row[k - 1]))
  }

  lemma {:induction false} ScanFields(text: string, i: nat, row: seq<string>, k: nat, c: Cursor)
    requires 0 < k <= |row| && At(text, i, PrintFields(row, k)) && !c.inQuote && c.field == "" && c.row == []
    requires var j := i + |PrintFields(row, k)|; j < |text| && text[j] != '"'
    ensures Scan(text, i, c) == Scan(text, i + |PrintFields(row, k)|, AfterFields(c, row, k))
  {
    hide Scan, At, PrintField, Fold;
    if k == 1 {
      FirstField(row);
      assert AfterFields(c, row, 1) == c.(field := Fold(row[0]));
      ScanField(text, i, row[0], c);
    } else {
      var before, last := PrintFields(row, k - 1), PrintField(row[k - 1]);
      assert PrintFields(row, k) == before + ("," + last);
      AtSplit(text, i, before, "," + last);
      AtChar(text, i + |before|, "," + last);
      ScanFields(text, i, row, k - 1, c);
      var mid := AfterFields(c, row, k - 1);
      assert EndField(mid).(field := Fold(row[k - 1])) == AfterFields(c, row, k);
      hide AfterFields, PrintFields;
      assert !mid.inQuote && |"," + last| == 1 + |last|;
      ScanNextField(text, i + |before|, row[k - 1], mid);
    }
  }

  lemma ScanNextField(text: string, i: nat, field: string, c: Cursor)
    requires At(text, i, "," + PrintField(field)) && !c.inQuote
    requires var j := i + 1 + |PrintField(field)|; j < |text| && text[j] != '"'
    ensures Scan(text, i, c) == Scan(text, i + 1 + |PrintField(field)|, EndField(c).(field := Fold(field)))
  {
    AtSplit(text, i, ",", PrintField(field));
    hide Scan, At, PrintField;
    ScanComma(text, i, c);
    ScanField(text, i + 1, field, EndField(c));
  }

  lemma ScanRow(text: string, i: nat, row: seq<string>, c: Cursor)
    requires At(text, i, PrintRow(row)) && !c.inQuote && c.field == "" && c.row == []
    ensures Scan(text, i, c) == Scan(text, i + |PrintRow(row)|, c.(rows := c.rows + [Normalized(row)]))
  {
    hide Scan, At, Fold;
    var fields := PrintFields(row, |row|);
    AtSplit(text, i, fields, "\r\n");
    if row == [] {
      assert fields == "" && PrintRow(row) == "\r\n";
      ScanLineEnd(text, i, c);
      assert [] + [c.field] == [""];
    } else {
      var mid := AfterFields(c, row, |row|);
      ScanLineEnd(text, i + |fields|, mid);
      ScanFields(text, i, row, |row|, c);
      assert EndRecord(mid) == c.(rows := c.rows + [Normalized(row)]);
    }
  }

  lemma {:induction false} ScanRows(text: string, rows: seq<seq<string>>, k: nat)
    requires k <= |rows| && At(text, 0, Print(rows, k))
    ensures Scan(text, 0, START) == Scan(text, |Print(rows, k)|, START.(rows := NormalizedRows(rows, k)))
  {
    hide Scan, At, PrintRow, Normalized;
    if k > 0 {
      AtSplit(text, 0, Print(rows, k - 1), PrintRow(rows[k - 1]));
      ScanRows(text, rows, k - 1);
      ScanRow(text, |Print(rows, k - 1)|, rows[k - 1], START.(rows := NormalizedRows(rows, k - 1)));
    }
  }

  /** Every table reads back, with CR LF inside fields folded to LF and empty records as one empty field. */
  lemma ParsePrinted(rows: seq<seq<string>>)
    ensures Parse(Print(rows, |rows|)) == NormalizedRows(rows, |rows|)
  {
    hide Print, NormalizedRows;
    var text := Print(rows, |rows|);
    assert text[0..|text|] == text;
    ScanRows(text, rows, |rows|);
  }

  // ----- which tables read back unchanged

  predicate HasCrLf(s: string)
  {
    exists i :: 0 <= i < |s| - 1 && s[i] == '\r' && s[i + 1] == '\n'
  }

  lemma {:induction false} FoldFixes(s: string)
    ensures |Fold(s)| <= |s|
    ensures Fold(s) == s <==> !HasCrLf(s)
  {
    if s == "" {
    } else if s[0] == '\r' && |s| > 1 && s[1] == '\n' {
      FoldFixes(s[2..]);
      assert HasCrLf(s);
    } else {
      FoldFixes(s[1..]);
      assert s == [s[0]] + s[1..];
      if HasCrLf(s[1..]) {
        var i :| 0 <= i < |s[1..]| - 1 && s[1..][i] == '\r' && s[1..][i + 1] == '\n';
        assert s[i + 1] == '\r' && s[i + 2] == '\n';
      }
      if HasCrLf(s) {
        var i :| 0 <= i < |s| - 1 && s[i] == '\r' && s[i + 1] == '\n';
        assert s[1..][i - 1] == '\r' && s[1..][i] == '\n';
      }
      assert ([s[0]] + Fold(s[1..]))[1..] == Fold(s[1..]);
    }
  }

  predicate Faithful(row: seq<string>)
  {
    row != [] && forall i :: 0 <= i < |row| ==> !HasCrLf(row[i])
  }

  predicate AllFaithful(rows: seq<seq<string>>)
  {
    forall i :: 0 <= i < |rows| ==> Faithful(rows[i])
  }

  lemma NormalizedFixes(row: seq<string>)
    ensures Normalized(row) == row <==> Faithful(row)
  {
    forall i | 0 <= i < |row| ensures Fold(row[i]) == row[i] <==> !HasCrLf(row[i]) {
      FoldFixes(row[i]);
    }
    hide HasCrLf, Fold;
    if Normalized(row) == row {
      forall i | 0 <= i < |row| ensures !HasCrLf(row[i]) {
        assert FoldFields(row, |row|)[i] == row[i];
      }
    }
  }

  /** A table reads back unchanged exactly when no record is empty and no field holds CR LF. */
  lemma RoundTrip(rows: seq<seq<string>>)
    ensures Parse(Print(rows, |rows|)) == rows <==> AllFaithful(rows)
  {
    hide Faithful, Normalized, Parse, Print, NormalizedRows;
    ParsePrinted(rows);
    forall i | 0 <= i < |rows| ensures Normalized(rows[i]) == rows[i] <==> Faithful(rows[i]) {
      NormalizedFixes(rows[i]);
    }
    if AllFaithful(rows) {
      assert NormalizedRows(rows, |rows|) == rows;
    }
    if NormalizedRows(rows, |rows|) == rows {
      forall i | 0 <= i < |rows| ensures Faithful(rows[i]) {
        assert NormalizedRows(rows, |rows|)[i] == rows[i];
      }
    }
  }

  // ----- when what was parsed prints and parses to itself

  predicate EndsInCr(s: string)
  {
    s != "" && s[|s| - 1] == '\r'
  }

  /** Inside quotes the text has CR LF right after a CR, from position i on. */
  predicate CrBeforeFold(text: string, i: nat, c: Cursor)
    decreases |text| - i
  {
    if i >= |text| then false
    else
      || (c.inQuote && text[i] == '\r' && Next(text, i, '\n') && EndsInCr(c.field))
      || var (j, next) := Step(text, i, c);
         CrBeforeFold(text, j, next)
  }

  /** No field read so far holds CR LF. */
  ghost predicate Clean(c: Cursor)
  {
    && AllFaithful(c.rows)
    && (forall k :: 0 <= k < |c.row| ==> !HasCrLf(c.row[k]))
    && !HasCrLf(c.field)
  }

  /** After a CR in the field, the text ahead neither ends the line nor opens a quote. */
  predicate CrIsAlone(text: string, i: nat, c: Cursor)
  {
    EndsInCr(c.field) && i < |text| ==> text[i] != if c.inQuote then '\n' else '"'
  }

  lemma CrLfOfAppend(s: string, d: char)
    ensures HasCrLf(s + [d]) <==> HasCrLf(s) || (EndsInCr(s) && d == '\n')
    ensures EndsInCr(s + [d]) <==> d == '\r'
  {
    var t := s + [d];
    if HasCrLf(s) {
      var i :| 0 <= i < |s| - 1 && s[i] == '\r' && s[i + 1] == '\n';
      assert t[i] == '\r' && t[i + 1] == '\n';
    }
    if EndsInCr(s) && d == '\n' {
      assert t[|s| - 1] == '\r' && t[|s|] == '\n';
    }
    if HasCrLf(t) {
      var i :| 0 <= i < |t| - 1 && t[i] == '\r' && t[i + 1] == '\n';
      assert i < |s| - 1 ==> s[i] == '\r' && s[i + 1] == '\n';
    }
  }

  lemma StepIsClean(text: string, i: nat, c: Cursor)
    requires i < |text| && CrIsAlone(text, i, c)
    ensures var (j, next) := Step(text, i, c);
            && CrIsAlone(text, j, next)
            && (Clean(next) <==>
                 Clean(c) && !(c.inQuote && text[i] == '\r' && Next(text, i, '\n') && EndsInCr(c.field)))
  {
    var (j, next) := Step(text, i, c);
    CrLfOfAppend(c.field, text[i]);
    CrLfOfAppend(c.field, '\n');
    CrLfOfAppend(c.field, '"');
    NoCrLf();
    hide HasCrLf;
    if next.field == c.field + [text[i]] || next.field == c.field + "\n" || next.field == c.field + "\"" {
      assert next.rows == c.rows && next.row == c.row;
    } else if next.rows != c.rows {
      assert next.rows == c.rows + [c.row + [c.field]];
      EndRecordIsClean(c);
    } else if next.row != c.row {
      assert next.row == c.row + [c.field];
      assert forall k :: 0 <= k < |c.row| ==> next.row[k] == c.row[k];
      assert next.row[|c.row|] == c.field;
    }
  }

  lemma EndRecordIsClean(c: Cursor)
    ensures Clean(EndRecord(c)) <==> Clean(c)
  {
    var e := EndRecord(c);
    var row := c.row + [c.field];
    NoCrLf();
    hide HasCrLf;
    assert forall k :: 0 <= k < |c.rows| ==> e.rows[k] == c.rows[k];
    assert e.rows[|c.rows|] == row;
    assert forall k :: 0 <= k < |c.row| ==> row[k] == c.row[k];
    assert row[|c.row|] == c.field;
    assert Faithful(row) <==> (forall k :: 0 <= k < |c.row| ==> !HasCrLf(c.row[k])) && !HasCrLf(c.field);
  }

  lemma NoCrLf()
    ensures !HasCrLf("")
  {
  }

  lemma {:induction false} ScanIsClean(text: string, i: nat, c: Cursor)
    requires CrIsAlone(text, i, c)
    ensures Clean(Scan(text, i, c)) <==> Clean(c) && !CrBeforeFold(text, i, c)
    decreases |text| - i
  {
    hide Clean, CrIsAlone, Step, Next, EndsInCr;
    if i < |text| {
      var (j, next) := Step(text, i, c);
      StepIsClean(text, i, c);
      ScanIsClean(text, j, next);
    }
  }

  /**
   What was parsed from any text prints and parses to itself, exactly when the text does not have CR CR LF inside a
   quoted field: the parser folds the line end and leaves a new one.
   */
  lemma Reparse(text: string)
    ensures var rows := Parse(text);
            Parse(Print(rows, |rows|)) == rows <==> !CrBeforeFold(text, 0, START)
  {
    var c := Scan(text, 0, START);
    NoCrLf();
    ScanIsClean(text, 0, START);
    FlushIsClean(c);
    RoundTrip(Parse(text));
  }

  lemma FlushIsClean(c: Cursor)
    ensures AllFaithful(Flush(c)) <==> Clean(c)
  {
    NoCrLf();
    EndRecordIsClean(c);
    hide HasCrLf;
    BetweenRecords(EndRecord(c));
    if c.field == "" && c.row == [] {
      BetweenRecords(c);
    }
    hide Clean, EndRecord, AllFaithful;
  }

  lemma BetweenRecords(c: Cursor)
    requires c.field == "" && c.row == []
    ensures Clean(c) <==> AllFaithful(c.rows)
  {
    NoCrLf();
    hide HasCrLf, AllFaithful;
  }

  /** Such a text: the field read from it holds CR LF, which the next parse folds. */
  lemma CrCrLfInQuotes()
    ensures Parse("\"\r\r\n\"") == [["\r\n"]] && Parse(Print([["\r\n"]], 1)) == [["\n"]]
  {
    var text := "\"\r\r\n\"";
    var inside := START.(inQuote := true);
    assert Step(text, 0, START) == (1, inside);
    assert "" + "\r" == "\r" && "\r" + "\n" == "\r\n";
    assert Step(text, 1, inside) == (2, inside.(field := "\r"));
    assert Step(text, 2, inside.(field := "\r")) == (4, inside.(field := "\r\n"));
    assert Step(text, 4, inside.(field := "\r\n")) == (5, START.(field := "\r\n"));
    ScanFour(text, inside);
    assert Scan(text, 0, START) == START.(field := "\r\n");
    var last := START.(field := "\r\n");
    assert [] + ["\r\n"] == ["\r\n"];
    assert EndRecord(last).rows == [["\r\n"]];
    FoldedPair();
  }

  lemma ScanFour(text: string, inside: Cursor)
    requires |text| == 5
    requires Step(text, 0, START) == (1, inside)
    requires Step(text, 1, inside) == (2, inside.(field := "\r"))
    requires Step(text, 2, inside.(field := "\r")) == (4, inside.(field := "\r\n"))
    requires Step(text, 4, inside.(field := "\r\n")) == (5, START.(field := "\r\n"))
    ensures Scan(text, 0, START) == START.(field := "\r\n")
  {
    hide Step;
    assert Scan(text, 5, START.(field := "\r\n")) == START.(field := "\r\n");
    assert Scan(text, 4, inside.(field := "\r\n")) == START.(field := "\r\n");
    assert Scan(text, 2, inside.(field := "\r")) == START.(field := "\r\n");
    assert Scan(text, 1, inside) == START.(field := "\r\n");
  }

  lemma FoldedPair()
    ensures Parse(Print([["\r\n"]], 1)) == [["\n"]]
  {
    var row := ["\r\n"];
    ParsePrinted([row]);
    assert Fold("\r\n") == "\n" + Fold("\r\n"[2..]);
    assert "\r\n"[2..] == "";
    assert Fold(row[0]) == "\n";
    assert Normalized(row) == ["\n"];
    assert NormalizedRows([row], 1) == [["\n"]];
  }

  // ----- a line end after the last record

  /** A line end of its own: not the second half of one that has begun. */
  predicate LineEnd(text: string, end: string)
  {
    end == "\r\n" || end == "\r" || (end == "\n" && !EndsInCr(text))
  }

  lemma SameStep(text: string, end: string, i: nat, c: Cursor)
    requires i < |text| && LineEnd(text, end)
    ensures Step(text + end, i, c) == Step(text, i, c) && Step(text, i, c).0 <= |text|
  {
    var more := text + end;
    assert more[i] == text[i];
    assert i + 1 < |text| ==> more[i + 1] == text[i + 1];
    assert i + 1 == |text| ==> more[i + 1] == end[0];
    assert Next(text, i, '"') == Next(more, i, '"');
    assert text[i] == '\r' ==> Next(text, i, '\n') == Next(more, i, '\n');
  }

  lemma {:induction false} SameScan(text: string, end: string, i: nat, c: Cursor)
    requires i <= |text| && LineEnd(text, end)
    ensures Scan(text + end, i, c) == Scan(text + end, |text|, Scan(text, i, c))
    decreases |text| - i
  {
    hide Step, LineEnd;
    if i < |text| {
      SameStep(text, end, i, c);
      SameScan(text, end, Step(text, i, c).0, Step(text, i, c).1);
    }
  }

  /** Inside quotes a line end is text, and outside it ends the record. */
  lemma ScanWithEnd(text: string, end: string)
    requires LineEnd(text, end)
    ensures var c := Scan(text, 0, START);
            Scan(text + end, 0, START) == if c.inQuote then Append(c, if end == "\r\n" then "\n" else end) else EndRecord(c)
  {
    var more, n, c := text + end, |text|, Scan(text, 0, START);
    SameScan(text, end, 0, START);
    assert more[n] == end[0] && (|end| == 2 ==> more[n + 1] == end[1]);
    var next := if c.inQuote then Append(c, if end == "\r\n" then "\n" else end) else EndRecord(c);
    assert Step(more, n, c) == (|more|, next);
    ScanOne(more, n, c);
  }

  lemma FlushGrows(c: Cursor, s: string)
    requires s != ""
    ensures Flush(Append(c, s)) != Flush(c)
  {
    var a, b := Flush(Append(c, s)), Flush(c);
    assert a[|a| - 1] == c.row + [c.field + s];
    assert |c.field + s| > |c.field|;
    assert (c.row + [c.field])[|c.row|] == c.field && (c.row + [c.field + s])[|c.row|] == c.field + s;
  }

  lemma FlushEnded(c: Cursor)
    ensures Flush(EndRecord(c)) == EndRecord(c).rows
    ensures Flush(EndRecord(c)) == Flush(c) <==> c.field != "" || c.row != []
  {
    assert |EndRecord(c).rows| == |c.rows| + 1;
  }

  /**
   A line end after the last record is ignored exactly when the text ends outside quotes, and with a field that is not
   empty, or a record of several fields, or the first half of that line end.
   */
  lemma TrailingLineEnd(text: string, end: string)
    requires end in {"\n", "\r", "\r\n"}
    ensures var c := Scan(text, 0, START);
            Parse(text + end) == Parse(text)
            <==> !c.inQuote && (c.field != "" || c.row != [] || (end == "\n" && EndsInCr(text)))
  {
    var c := Scan(text, 0, START);
    if LineEnd(text, end) {
      ScanWithEnd(text, end);
      hide Flush, EndRecord, Append, Scan;
      if c.inQuote {
        FlushGrows(c, if end == "\r\n" then "\n" else end);
      } else {
        FlushEnded(c);
      }
    } else {
      var before := text[..|text| - 1];
      assert text == before + "\r" && text + end == before + "\r\n";
      SecondHalf(before);
    }
  }

  /** A line end whose first half was there before. */
  lemma SecondHalf(before: string)
    ensures var c := Scan(before + "\r", 0, START);
            Parse(before + "\r\n") == Parse(before + "\r") <==> !c.inQuote
  {
    var c := Scan(before, 0, START);
    ScanWithEnd(before, "\r");
    ScanWithEnd(before, "\r\n");
    if c.inQuote {
      var a, b := Flush(Append(c, "\r")), Flush(Append(c, "\n"));
      assert a[|a| - 1][|c.row|] == c.field + "\r" && b[|b| - 1][|c.row|] == c.field + "\n";
      assert (c.field + "\r")[|c.field|] != (c.field + "\n")[|c.field|];
    }
  }

  /** A printed table reads the same without its last line end, exactly when its last record is not one empty field. */
  lemma WithoutLastLineEnd(rows: seq<seq<string>>)
    requires rows != []
    ensures var text, last := Print(rows, |rows|), rows[|rows| - 1];
            && |text| >= 2 && text[|text| - 2..] == "\r\n"
            && (Parse(text[..|text| - 2]) == Parse(text) <==> last != [] && last != [""])
  {
    var text, last := Print(rows, |rows|), rows[|rows| - 1];
    var before := Print(rows, |rows| - 1) + PrintFields(last, |last|);
    assert text == before + "\r\n" && text[..|text| - 2] == before;
    assert text[0..|text|] == text;
    ScanRows(text, rows, |rows|);
    hide Print, PrintFields, PrintRow, Scan;
    ScanWithEnd(before, "\r\n");
    var c := Scan(before, 0, START);
    assert !c.inQuote && EndRecord(c).rows == NormalizedRows(rows, |rows|);
    assert EndRecord(c).rows[|rows| - 1] == c.row + [c.field] == Normalized(last);
    FlushEnded(c);
    OneEmptyField(last);
    OnlyField(c.row, c.field);
  }

  lemma OnlyField(row: seq<string>, field: string)
    ensures row + [field] == [""] <==> row == [] && field == ""
  {
    assert (row + [field])[|row|] == field && |row + [field]| == |row| + 1;
  }

  lemma OneEmptyField(row: seq<string>)
    ensures Normalized(row) == [""] <==> row == [] || row == [""]
  {
    if row == [""] {
      assert Normalized(row) == [Fold("")];
    }
    if row != [] && Normalized(row) == [""] {
      assert |row| == 1 && Fold(row[0]) == "";
      if row[0] != "" {
        FoldTaken(row[0]);
      }
    }
  }

  /** Such a table: one record of one empty field, quoted. */
  lemma LastEmptyFieldIsLost()
    ensures Parse("\"\"") == [] && Parse("\"\"\r\n") == [[""]]
  {
    var text, inside := "\"\"", START.(inQuote := true);
    assert Step(text, 0, START) == (1, inside);
    assert Step(text, 1, inside) == (2, START);
    assert Scan(text, 2, START) == START;
    assert Scan(text, 1, inside) == START;
    ScanWithEnd(text, "\r\n");
    assert text + "\r\n" == "\"\"\r\n";
    assert [] + [""] == [""];
    assert EndRecord(START).rows == [[""]];
  }
}
