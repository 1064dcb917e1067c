/** The CSV line parsers of companies-house-source.js and authority/lib/csv.js, and the printer
    `escapeCsv` of test-headers-qa.js (quoting as in RFC 4180, section 2, rules 5 to 7). */
module Csv {
  import opened Normalise

  // ---------- the printer ----------

  predicate NeedsQuotes(s: string) {
    ',' in s || '"' in s || '\n' in s
  }

  /** Every quote doubled. */
  function Doubled(s: string): string {
    if s == "" then "" else (if s[0] == '"' then ['"', '"'] else [s[0]]) + Doubled(s[1..])
  }

  function EscapeCsv(s: string): string {
    if NeedsQuotes(s) then "\"" + Doubled(s) + "\"" else s
  }

  lemma {:induction false} DoubledIsLonger(s: string)
    ensures |Doubled(s)| >= |s|
  {
    if s == "" {
    } else {
      DoubledIsLonger(s[1..]);
    }
  }

  /** A field is printed as it is exactly when it holds no comma, quote or line feed; any other is put
      between quotes. */
  lemma QuotedIff(f: string)
    ensures EscapeCsv(f) == f <==> ',' !in f && '"' !in f && '\n' !in f
    ensures EscapeCsv(f) != f ==> EscapeCsv(f)[0] == '"' && EscapeCsv(f)[|EscapeCsv(f)| - 1] == '"'
  {
    DoubledIsLonger(f);
    assert |EscapeCsv(f)| == if NeedsQuotes(f) then |Doubled(f)| + 2 else |f|;
  }

  /** The escaped fields joined with commas. */
  function Row(fields: seq<string>): string {
    if fields == [] then ""
    else if |fields| == 1 then EscapeCsv(fields[0])
    else EscapeCsv(fields[0]) + "," + Row(fields[1..])
  }

  // ---------- the parser ----------

  /** What the parser returns from here on: the rest of the line, the finished fields, the field being
      read and whether it is inside quotes. */
  function Parse(rest: string, out: seq<string>, field: string, inQuotes: bool): seq<string>
    decreases |rest|
  {
    if rest == "" then out + [field]
    else if inQuotes then
      if rest[0] != '"' then Parse(rest[1..], out, field + [rest[0]], true)
      else if |rest| > 1 && rest[1] == '"' then Parse(rest[2..], out, field + ['"'], true)
      else Parse(rest[1..], out, field, false)
    else if rest[0] == '"' then Parse(rest[1..], out, field, true)
    else if rest[0] == ',' then Parse(rest[1..], out + [field], "", false)
    else Parse(rest[1..], out, field + [rest[0]], false)
  }

  /** `parseCsvLine` without trimming. */
  method ParseCsvLine(line: string) returns (out: seq<string>)
    ensures out == Parse(line, [], "", false)
  {
    out := [];
    var field, inQuotes, i := "", false, 0;
    assert line[0..] == line;
    while i < |line|
      invariant i <= |line| && Parse(line[i..], out, field, inQuotes) == Parse(line, [], "", false)
    {
      var c := line[i];
      assert line[i..][1..] == line[i + 1..];
      if inQuotes {
        if c == '"' {
          if i + 1 < |line| && line[i + 1] == '"' {
            assert line[i..][2..] == line[i + 2..];
            field := field + ['"'];
            i := i + 1;
          } else {
            inQuotes := false;
          }
        } else {
          field := field + [c];
        }
      } else if c == '"' {
        inQuotes := true;
      } else if c == ',' {
        out, field := out + [field], "";
      } else {
        field := field + [c];
      }
      i := i + 1;
    }
    out := out + [field];
  }

  function TrimStart(s: string): string {
    if s != "" && IsSpace(s[0]) then TrimStart(s[1..]) else s
  }

  function TrimEnd(s: string): string {
    if s != "" && IsSpace(s[|s| - 1]) then TrimEnd(s[..|s| - 1]) else s
  }

  function Trim(s: string): string {
    TrimEnd(TrimStart(s))
  }

  function TrimAll(fields: seq<string>): seq<string> {
    seq(|fields|, i requires 0 <= i < |fields| => Trim(fields[i]))
  }

  /** The parser of authority/lib/csv.js trims every field. */
  method ParseCsvLineTrimmed(line: string) returns (out: seq<string>)
    ensures out == TrimAll(Parse(line, [], "", false))
  {
    var raw := ParseCsvLine(line);
    out := TrimAll(raw);
  }

  // ---------- the round trip ----------

  lemma {:induction false} PlainRun(f: string, rest: string, out: seq<string>, cur: string)
    requires ',' !in f && '"' !in f
    ensures Parse(f + rest, out, cur, false) == Parse(rest, out, cur + f, false)
  {
    if f == "" {
      assert f + rest == rest && cur + f == cur;
    } else {
      assert f[0] in f;
      assert (f + rest)[0] == f[0] && (f + rest)[1..] == f[1..] + rest;
      PlainRun(f[1..], rest, out, cur + [f[0]]);
      assert cur + [f[0]] + f[1..] == cur + f;
    }
  }

  /** Inside quotes: the doubled text, the closing quote, then something that is not a quote. */
  lemma {:induction false} QuotedRun(f: string, rest: string, out: seq<string>, cur: string)
    requires rest == "" || rest[0] != '"'
    ensures Parse(Doubled(f) + "\"" + rest, out, cur, true) == Parse(rest, out, cur + f, false)
  {
    var text := Doubled(f) + "\"" + rest;
    if f == "" {
      assert text[0] == '"' && text[1..] == rest && cur + f == cur;
    } else {
      var more := Doubled(f[1..]) + "\"" + rest;
      QuotedRun(f[1..], rest, out, cur + [f[0]]);
      assert cur + [f[0]] + f[1..] == cur + f;
      if f[0] == '"' {
        assert text == ['"', '"'] + more;
        assert text[2..] == more;
      } else {
        assert text == [f[0]] + more;
        assert text[1..] == more;
      }
    }
  }

  lemma QuotedField(f: string, rest: string, out: seq<string>)
    requires rest == "" || rest[0] != '"'
    ensures Parse("\"" + Doubled(f) + "\"" + rest, out, "", false) == Parse(rest, out, f, false)
  {
    var text, inside := "\"" + Doubled(f) + "\"" + rest, Doubled(f) + "\"" + rest;
    assert text == "\"" + inside;
    assert text[0] == '"' && text[1..] == inside;
    QuotedRun(f, rest, out, "");
    assert "" + f == f;
  }

  /** One printed field is read back whole. */
  lemma FieldRun(f: string, rest: string, out: seq<string>)
    requires rest == "" || rest[0] == ','
    ensures Parse(EscapeCsv(f) + rest, out, "", false) == Parse(rest, out, f, false)
  {
    if NeedsQuotes(f) {
      QuotedField(f, rest, out);
    } else {
      PlainRun(f, rest, out, "");
      assert "" + f == f;
    }
  }

  lemma FirstFieldIsRead(f: string, row: string, out: seq<string>)
    ensures Parse(EscapeCsv(f) + "," + row, out, "", false) == Parse(row, out + [f], "", false)
  {
    var rest := "," + row;
    assert EscapeCsv(f) + "," + row == EscapeCsv(f) + rest;
    FieldRun(f, rest, out);
    assert rest[0] == ',' && rest[1..] == row;
  }

  lemma OnlyFieldIsRead(f: string, out: seq<string>)
    ensures Parse(EscapeCsv(f), out, "", false) == out + [f]
  {
    FieldRun(f, "", out);
    assert EscapeCsv(f) + "" == EscapeCsv(f);
  }

  lemma {:induction false} RowIsRead(fields: seq<string>, out: seq<string>)
    requires fields != []
    ensures Parse(Row(fields), out, "", false) == out + fields
  {
    if |fields| == 1 {
      OnlyFieldIsRead(fields[0], out);
      assert fields == [fields[0]];
    } else {
      FirstFieldIsRead(fields[0], Row(fields[1..]), out);
      RowIsRead(fields[1..], out + [fields[0]]);
      assert out + [fields[0]] + fields[1..] == out + fields;
    }
  }

  /** What was printed is what is read. */
  lemma RoundTrip(fields: seq<string>)
    requires fields != []
    ensures Parse(Row(fields), [], "", false) == fields
  {
    RowIsRead(fields, []);
    assert [] + fields == fields;
  }

  /** No white space at either end. */
  predicate Bare(f: string) {
    f == "" || (!IsSpace(f[0]) && !IsSpace(f[|f| - 1]))
  }

  lemma {:induction false} TrimStartShrinks(s: string)
    ensures |TrimStart(s)| <= |s| && (s != "" && IsSpace(s[0]) ==> |TrimStart(s)| < |s|)
  {
    if s != "" && IsSpace(s[0]) { TrimStartShrinks(s[1..]); }
  }

  lemma {:induction false} TrimEndShrinks(s: string)
    ensures |TrimEnd(s)| <= |s| && (s != "" && IsSpace(s[|s| - 1]) ==> |TrimEnd(s)| < |s|)
  {
    if s != "" && IsSpace(s[|s| - 1]) { TrimEndShrinks(s[..|s| - 1]); }
  }

  lemma TrimKeepsIff(s: string)
    ensures Trim(s) == s <==> Bare(s)
  {
    TrimStartShrinks(s);
    TrimEndShrinks(s);
    TrimEndShrinks(TrimStart(s));
  }

  lemma TrimAllKeepsIff(fields: seq<string>)
    ensures TrimAll(fields) == fields <==> forall i :: 0 <= i < |fields| ==> Bare(fields[i])
  {
    forall i | 0 <= i < |fields| ensures TrimAll(fields)[i] == fields[i] <==> Bare(fields[i]) {
      TrimKeepsIff(fields[i]);
    }
  }

  /** The trimming parser returns each field trimmed, so it loses nothing exactly when no field has
      white space at an end. */
  lemma TrimmedRoundTripIff(fields: seq<string>)
    requires fields != []
    ensures TrimAll(Parse(Row(fields), [], "", false)) == TrimAll(fields)
    ensures TrimAll(Parse(Row(fields), [], "", false)) == fields <==> forall i :: 0 <= i < |fields| ==> Bare(fields[i])
  {
    RoundTrip(fields);
    TrimAllKeepsIff(fields);
  }

  /** Printing is injective on non-empty rows: different rows never share a line. */
  lemma RowIsInjective(a: seq<string>, b: seq<string>)
    requires a != [] && b != [] && Row(a) == Row(b)
    ensures a == b
  {
    RoundTrip(a);
    RoundTrip(b);
  }

  // ---------- whole files ----------

  /** A line feed, alone or after a carriage return. */
  predicate LineBreak(eol: string) {
    eol == "\n" || eol == "\r\n"
  }

  /** The rows joined with line breaks. */
  function File(rows: seq<seq<string>>, eol: string): string {
    if rows == [] then ""
    else if |rows| == 1 then Row(rows[0])
    else Row(rows[0]) + eol + File(rows[1..], eol)
  }

  /** A carriage return before the line feed belongs to the line break. */
  function WithoutCr(line: string): string {
    if line != "" && line[|line| - 1] == '\r' then line[..|line| - 1] else line
  }

  /** `text.split(/\r?\n/)`, with the line read so far. */
  function Lines(text: string, line: string): seq<string> {
    if text == "" then [line]
    else if text[0] == '\n' then [WithoutCr(line)] + Lines(text[1..], "")
    else Lines(text[1..], line + [text[0]])
  }

  predicate Blank(line: string) {
    Trim(line) == ""
  }

  /** Blank lines are skipped, the others parsed. */
  function ParseLines(lines: seq<string>): seq<seq<string>> {
    if lines == [] then []
    else (if Blank(lines[0]) then [] else [TrimAll(Parse(lines[0], [], "", false))]) + ParseLines(lines[1..])
  }

  /** `parseCsv`. */
  function ParseFile(text: string): seq<seq<string>> {
    ParseLines(Lines(text, ""))
  }

  lemma ParsePrefix(lines: seq<string>, i: nat)
    requires i < |lines|
    ensures ParseLines(lines[..i + 1]) == ParseLines(lines[..i])
              + if Blank(lines[i]) then [] else [TrimAll(Parse(lines[i], [], "", false))]
  {
    assert lines[..i + 1] == lines[..i] + [lines[i]];
    ParseOneMore(lines[..i], lines[i]);
  }

  lemma {:induction false} ParseOneMore(lines: seq<string>, line: string)
    ensures ParseLines(lines + [line]) == ParseLines(lines)
              + if Blank(line) then [] else [TrimAll(Parse(line, [], "", false))]
  {
    if lines == [] {
    } else {
      ParseOneMore(lines[1..], line);
      assert (lines + [line])[1..] == lines[1..] + [line];
    }
  }

  /** The loop over the lines. */
  method ParseCsv(text: string) returns (rows: seq<seq<string>>)
    ensures rows == ParseFile(text)
  {
    var lines := Lines(text, "");
    rows := [];
    for i := 0 to |lines|
      invariant rows == ParseLines(lines[..i])
    {
      ParsePrefix(lines, i);
      if !Blank(lines[i]) {
        var fields := ParseCsvLineTrimmed(lines[i]);
        rows := rows + [fields];
      }
    }
    assert lines[..|lines|] == lines;
  }

  // ---------- what cannot be read back ----------

  predicate NoBreak(s: string) {
    '\n' !in s
  }

  /** A field that survives trimming and does not break a line. */
  predicate Plain(f: string) {
    Bare(f) && NoBreak(f)
  }

  /** A row that is read back from a file. */
  predicate Keeps(row: seq<string>) {
    row != [] && row != [""] && forall i :: 0 <= i < |row| ==> Plain(row[i])
  }

  lemma TrimIsBare(s: string)
    ensures Bare(TrimEnd(TrimStart(s))) && (NoBreak(s) ==> NoBreak(TrimEnd(TrimStart(s))))
  {
    TrimStartTrims(s);
    TrimEndTrims(TrimStart(s));
  }

  lemma {:induction false} TrimStartTrims(s: string)
    ensures TrimStart(s) == "" || !IsSpace(TrimStart(s)[0])
    ensures forall c :: c in TrimStart(s) ==> c in s
  {
    if s != "" && IsSpace(s[0]) {
      TrimStartTrims(s[1..]);
    } else {
    }
  }

  lemma {:induction false} TrimEndTrims(s: string)
    ensures TrimEnd(s) == "" || !IsSpace(TrimEnd(s)[|TrimEnd(s)| - 1])
    ensures TrimEnd(s) != "" ==> TrimEnd(s)[0] == s[0]
    ensures forall c :: c in TrimEnd(s) ==> c in s
  {
    if s != "" && IsSpace(s[|s| - 1]) {
      TrimEndTrims(s[..|s| - 1]);
    } else {
    }
  }

  /** The parser puts only characters of the line into its fields. */
  lemma {:induction false} ParseKeepsBreaks(rest: string, out: seq<string>, field: string, inQuotes: bool)
    requires NoBreak(rest) && NoBreak(field) && forall i :: 0 <= i < |out| ==> NoBreak(out[i])
    ensures forall i :: 0 <= i < |Parse(rest, out, field, inQuotes)| ==> NoBreak(Parse(rest, out, field, inQuotes)[i])
    ensures |Parse(rest, out, field, inQuotes)| > |out|
    decreases |rest|
  {
    if rest == "" {
    } else if inQuotes {
      if rest[0] != '"' {
        assert rest[0] in rest;
        ParseKeepsBreaks(rest[1..], out, field + [rest[0]], true);
      } else if |rest| > 1 && rest[1] == '"' {
        ParseKeepsBreaks(rest[2..], out, field + ['"'], true);
      } else {
        ParseKeepsBreaks(rest[1..], out, field, false);
      }
    } else if rest[0] == '"' {
      ParseKeepsBreaks(rest[1..], out, field, true);
    } else if rest[0] == ',' {
      ParseKeepsBreaks(rest[1..], out + [field], "", false);
    } else {
      assert rest[0] in rest;
      ParseKeepsBreaks(rest[1..], out, field + [rest[0]], false);
    }
  }

  lemma {:induction false} LinesHaveNoBreak(text: string, line: string)
    requires NoBreak(line)
    ensures forall i :: 0 <= i < |Lines(text, line)| ==> NoBreak(Lines(text, line)[i])
  {
    if text == "" {
    } else if text[0] == '\n' {
      LinesHaveNoBreak(text[1..], "");
    } else {
      LinesHaveNoBreak(text[1..], line + [text[0]]);
    }
  }

  /** Whatever the file, its fields are trimmed and hold no line feed. */
  lemma {:induction false} ParsedRowsArePlain(lines: seq<string>, k: nat)
    requires (forall i :: 0 <= i < |lines| ==> NoBreak(lines[i])) && k < |ParseLines(lines)|
    ensures ParseLines(lines)[k] != [] && forall i :: 0 <= i < |ParseLines(lines)[k]| ==> Plain(ParseLines(lines)[k][i])
  {
    if Blank(lines[0]) {
      ParsedRowsArePlain(lines[1..], k);
    } else if k == 0 {
      ParsedLineIsPlain(lines[0]);
    } else {
      ParsedRowsArePlain(lines[1..], k - 1);
    }
  }

  lemma ParsedLineIsPlain(line: string)
    requires NoBreak(line)
    ensures var row := TrimAll(Parse(line, [], "", false)); row != [] && forall i :: 0 <= i < |row| ==> Plain(row[i])
  {
    var raw := Parse(line, [], "", false);
    ParseKeepsBreaks(line, [], "", false);
    forall i | 0 <= i < |raw| ensures Plain(Trim(raw[i])) {
      TrimIsBare(raw[i]);
    }
  }

  // ---------- the lines of a printed file ----------

  lemma {:induction false} DoubledBreaks(f: string)
    ensures NoBreak(Doubled(f)) <==> NoBreak(f)
  {
    if f == "" {
    } else {
      DoubledBreaks(f[1..]);
      assert f == [f[0]] + f[1..];
    }
  }

  lemma {:induction false} RowHasNoBreak(row: seq<string>)
    requires forall i :: 0 <= i < |row| ==> NoBreak(row[i])
    ensures NoBreak(Row(row))
  {
    if row == [] {
    } else {
      DoubledBreaks(row[0]);
      RowHasNoBreak(row[1..]);
    }
  }

  lemma {:induction false} LineRun(line: string, rest: string, cur: string)
    requires NoBreak(line)
    ensures Lines(line + rest, cur) == Lines(rest, cur + line)
  {
    if line == "" {
      assert line + rest == rest && cur + line == cur;
    } else {
      assert line[0] in line;
      assert (line + rest)[0] == line[0] && (line + rest)[1..] == line[1..] + rest;
      LineRun(line[1..], rest, cur + [line[0]]);
      assert cur + [line[0]] + line[1..] == cur + line;
    }
  }

  /** The last character of a printed row of plain fields is no carriage return. */
  lemma {:induction false} RowEndsBare(row: seq<string>)
    requires forall i :: 0 <= i < |row| ==> Bare(row[i])
    ensures WithoutCr(Row(row)) == Row(row)
  {
    if row == [] {
    } else if |row| == 1 {
      var f := row[0];
      assert NeedsQuotes(f) ==> EscapeCsv(f)[|EscapeCsv(f)| - 1] == '"';
    } else {
      RowEndsBare(row[1..]);
      var head, tail := EscapeCsv(row[0]) + ",", Row(row[1..]);
      assert Row(row) == head + tail;
      assert Row(row)[|Row(row)| - 1] == if tail == "" then ',' else tail[|tail| - 1];
    }
  }

  function RowLines(rows: seq<seq<string>>): seq<string> {
    seq(|rows|, i requires 0 <= i < |rows| => Row(rows[i]))
  }

  ghost predicate AllPlain(rows: seq<seq<string>>) {
    forall k, i :: 0 <= k < |rows| && 0 <= i < |rows[k]| ==> Plain(rows[k][i])
  }

  lemma OneLine(line: string)
    requires NoBreak(line)
    ensures Lines(line, "") == [line]
  {
    LineRun(line, "", "");
    assert line + "" == line && "" + line == line;
  }

  lemma LineUpTo(line: string, rest: string)
    requires NoBreak(line)
    ensures Lines(line + "\n" + rest, "") == [WithoutCr(line)] + Lines(rest, "")
  {
    LineRun(line, "\n" + rest, "");
    assert "" + line == line && line + "\n" + rest == line + ("\n" + rest) && ("\n" + rest)[1..] == rest;
  }

  lemma CrIsDropped(line: string)
    requires NoBreak(line)
    ensures WithoutCr(line + "\r") == line && NoBreak(line + "\r")
  {
    assert (line + "\r")[..|line|] == line;
  }

  lemma CrBelongsToBreak(line: string, rest: string)
    ensures line + "\r\n" + rest == line + "\r" + "\n" + rest
  {
    assert "\r\n" == "\r" + "\n";
  }

  /** Either line break ends a line that does not end in a carriage return itself. */
  lemma FirstLine(line: string, eol: string, rest: string)
    requires NoBreak(line) && WithoutCr(line) == line && LineBreak(eol)
    ensures Lines(line + eol + rest, "") == [line] + Lines(rest, "")
  {
    if eol == "\n" {
      LineUpTo(line, rest);
    } else {
      CrIsDropped(line);
      LineUpTo(line + "\r", rest);
      CrBelongsToBreak(line, rest);
    }
  }

  /** Rows of plain fields stand one to a line. */
  lemma {:induction false} FileLines(rows: seq<seq<string>>, eol: string)
    requires rows != [] && AllPlain(rows) && LineBreak(eol)
    ensures Lines(File(rows, eol), "") == RowLines(rows)
  {
    var line := Row(rows[0]);
    RowHasNoBreak(rows[0]);
    RowEndsBare(rows[0]);
    if |rows| == 1 {
      OneLine(line);
    } else {
      FileLines(rows[1..], eol);
      FirstLine(line, eol, File(rows[1..], eol));
      assert RowLines(rows) == [line] + RowLines(rows[1..]);
    }
  }

  /** Of plain rows, exactly the one that holds a single empty field prints to a blank line. */
  lemma BlankRowIff(row: seq<string>)
    requires forall i :: 0 <= i < |row| ==> Plain(row[i])
    ensures Blank(Row(row)) <==> row == [] || row == [""]
  {
    if row == [] {
    } else if |row| == 1 {
      OneFieldBlankIff(row[0]);
    } else {
      assert Row(row) == EscapeCsv(row[0]) + "," + Row(row[1..]);
      assert Row(row)[|EscapeCsv(row[0])|] == ',';
      BlankHasOnlySpace(Row(row), |EscapeCsv(row[0])|);
    }
  }

  lemma OneFieldBlankIff(f: string)
    requires Bare(f)
    ensures Blank(EscapeCsv(f)) <==> f == ""
  {
    if NeedsQuotes(f) {
      BlankHasOnlySpace(EscapeCsv(f), 0);
    } else {
      TrimKeepsIff(f);
    }
  }

  lemma BlankHasOnlySpace(s: string, k: nat)
    requires k < |s| && !IsSpace(s[k])
    ensures !Blank(s)
  {
    StartKeepsInk(s, k);
    var t := TrimStart(s);
    var m :| 0 <= m < |t| && !IsSpace(t[m]);
    EndKeepsInk(t, m);
  }

  lemma {:induction false} StartKeepsInk(s: string, k: nat)
    requires k < |s| && !IsSpace(s[k])
    ensures exists m :: 0 <= m < |TrimStart(s)| && !IsSpace(TrimStart(s)[m])
  {
    if IsSpace(s[0]) {
      StartKeepsInk(s[1..], k - 1);
      var m :| 0 <= m < |TrimStart(s[1..])| && !IsSpace(TrimStart(s[1..])[m]);
      assert !IsSpace(TrimStart(s)[m]);
    } else {
      assert !IsSpace(TrimStart(s)[k]);
    }
  }

  lemma {:induction false} EndKeepsInk(s: string, k: nat)
    requires k < |s| && !IsSpace(s[k])
    ensures TrimEnd(s) != ""
  {
    if IsSpace(s[|s| - 1]) {
      EndKeepsInk(s[..|s| - 1], k);
    } else {
    }
  }

  // ---------- the round trip of a file ----------

  /** A printed row is read back, unless its line is blank. */
  lemma FirstRowIsRead(rows: seq<seq<string>>)
    requires AllPlain(rows) && rows != []
    ensures ParseLines(RowLines(rows))
              == (if rows[0] == [] || rows[0] == [""] then [] else [rows[0]]) + ParseLines(RowLines(rows[1..]))
  {
    BlankRowIff(rows[0]);
    assert RowLines(rows)[1..] == RowLines(rows[1..]);
    if rows[0] != [] { TrimmedRoundTripIff(rows[0]); }
  }

  lemma {:induction false} PlainRowsAreRead(rows: seq<seq<string>>)
    requires AllPlain(rows)
    ensures |ParseLines(RowLines(rows))| <= |rows|
    ensures (forall k :: 0 <= k < |rows| ==> rows[k] != [] && rows[k] != [""]) ==> ParseLines(RowLines(rows)) == rows
    ensures (exists k :: 0 <= k < |rows| && (rows[k] == [] || rows[k] == [""])) ==>
            |ParseLines(RowLines(rows))| < |rows|
  {
    if rows == [] {
    } else {
      PlainRowsAreRead(rows[1..]);
      FirstRowIsRead(rows);
      assert rows == [rows[0]] + rows[1..];
      if k :| 0 <= k < |rows| && (rows[k] == [] || rows[k] == [""]) {
        if k > 0 { assert rows[1..][k - 1] == rows[k]; }
      }
    }
  }

  /** A printed file, with either line break, is read back exactly when no field has white space at an end
      or holds a line feed, and no row is empty or a single empty field: such a row prints to a blank line. */
  lemma FileRoundTripIff(rows: seq<seq<string>>, eol: string)
    requires LineBreak(eol)
    ensures ParseFile(File(rows, eol)) == rows <==> forall k :: 0 <= k < |rows| ==> Keeps(rows[k])
  {
    if ParseFile(File(rows, eol)) == rows { ReadBackIsPlain(rows, File(rows, eol)); }
    if rows == [] {
      assert Lines("", "") == [""];
    } else if AllPlain(rows) {
      FileLines(rows, eol);
      PlainRowsAreRead(rows);
    }
  }

  lemma ReadBackIsPlain(rows: seq<seq<string>>, text: string)
    requires ParseFile(text) == rows
    ensures AllPlain(rows)
  {
    LinesHaveNoBreak(text, "");
    forall k | 0 <= k < |rows| ensures forall i :: 0 <= i < |rows[k]| ==> Plain(rows[k][i]) {
      ParsedRowsArePlain(Lines(text, ""), k);
    }
  }
}
