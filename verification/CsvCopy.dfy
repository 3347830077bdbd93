/** The CSV writer and reader of the `\copy` command. */
module CsvCopy {
  import opened Wrappers
  import TextSplit

  type Field = Option<string>  // None is NULL
  type Record = seq<Field>

  // ----- writing

  predicate NeedsQuotes(v: string) {
    exists i :: 0 <= i < |v| && (v[i] == ',' || v[i] == '"' || v[i] == '\n')
  }

  function Text(f: Field): string {
    if f.None? then "" else f.value
  }

  function Escape(v: string): string {
    if v == "" then "" else (if v[0] == '"' then "\"\"" else [v[0]]) + Escape(v[1..])
  }

  function Written(v: string): string {
    if NeedsQuotes(v) then "\"" + (Escape(v) + "\"") else v
  }

  /** The line of a record, without its newline. */
  function Line(r: Record): string {
    if r == [] then ""
    else if |r| == 1 then Written(Text(r[0]))
    else Written(Text(r[0])) + "," + Line(r[1..])
  }

  function File(records: seq<Record>): string {
    if records == [] then "" else Line(records[0]) + "\n" + File(records[1..])
  }

  method WriteValue(val: string, prefix: string) returns (out: string)
    ensures out == prefix + Written(val)
  {
    out := prefix;
    if NeedsQuotes(val) {
      out := out + "\"";
      assert val[0..] == val;
      for i := 0 to |val|
        invariant out + Escape(val[i..]) == prefix + "\"" + Escape(val)
      {
        var c := val[i];
        assert val[i..][1..] == val[i + 1..];
        if c == '"' {
          out := out + "\"\"";
        } else {
          out := out + [c];
        }
      }
      assert out + "" == out;
      out := out + "\"";
    } else {
      out := out + val;
    }
  }

  /** What a record adds from its i-th field on, separator first unless at the start. */
  function Rest(r: Record, i: nat): string
    requires i <= |r|
    decreases |r| - i
  {
    if i == |r| then "" else (if i > 0 then "," else "") + Written(Text(r[i])) + Rest(r, i + 1)
  }

  lemma {:induction false} RestIsLine(r: Record, i: nat)
    requires i < |r|
    ensures Rest(r, i) == (if i > 0 then "," else "") + Line(r[i..])
    decreases |r| - i
  {
    if i + 1 < |r| {
      RestIsLine(r, i + 1);
      assert r[i..][1..] == r[i + 1..];
    }
  }

  lemma RestEnds(out: string, r: Record)
    ensures out + Rest(r, |r|) == out && (r == [] ==> Rest(r, 0) == "")
  {
  }

  lemma RestStep(out: string, separator: string, r: Record, i: nat)
    requires i < |r| && separator == if i > 0 then "," else ""
    ensures out + separator + Written(Text(r[i])) + Rest(r, i + 1) == out + Rest(r, i)
  {
    var (w, rest) := (Written(Text(r[i])), Rest(r, i + 1));
    assert out + separator + w + rest == out + (separator + w + rest);
  }

  method WriteRecord(r: Record) returns (out: string)
    ensures out == Line(r) + "\n"
  {
    hide Written, Rest;
    out := "";
    for i := 0 to |r|
      invariant out + Rest(r, i) == Rest(r, 0)
    {
      var separator := if i > 0 then "," else "";
      RestStep(out, separator, r, i);
      out := WriteValue(Text(r[i]), out + separator);
    }
    if r != [] {
      RestIsLine(r, 0);
      assert r[0..] == r;
    }
    RestEnds(out, r);
    out := out + "\n";
  }

  // ----- reading

  /** The reader with `rest` of the line to come; the end of the line counts as one more comma. */
  function Scan(rest: string, field: string, quoted: bool, values: seq<string>): seq<string>
    decreases |rest|
  {
    if rest == "" then
      values + [if quoted then field + "," else field]
    else if rest[0] == '"' then
      if quoted && |rest| > 1 && rest[1] == '"' then Scan(rest[2..], field + "\"", quoted, values)
      else Scan(rest[1..], field, !quoted, values)
    else if rest[0] == ',' && !quoted then Scan(rest[1..], "", quoted, values + [field])
    else Scan(rest[1..], field + [rest[0]], quoted, values)
  }

  method ParseLine(line: string) returns (values: seq<string>)
    ensures values == Scan(line, "", false, [])
  {
    values := [];
    var field, quoted, i := "", false, 0;
    assert line[0..] == line;
    while i <= |line|
      invariant 0 <= i <= |line| + 1
      invariant i <= |line| ==> Scan(line[i..], field, quoted, values) == Scan(line, "", false, [])
      invariant i > |line| ==>
        Scan(line, "", false, []) == if field != "" || values == [] then values + [field] else values
    {
      var c := if i < |line| then line[i] else ',';
      if i < |line| {
        assert line[i..][1..] == line[i + 1..];
        if i + 1 < |line| {
          assert line[i..][2..] == line[i + 2..];
        }
      }
      if c == '"' {
        if quoted && i + 1 < |line| && line[i + 1] == '"' {
          field := field + "\"";
          i := i + 1;
        } else {
          quoted := !quoted;
        }
      } else if c == ',' && !quoted {
        values := values + [field];
        field := "";
      } else {
        field := field + [c];
      }
      i := i + 1;
    }
    if field != "" || values == [] {
      values := values + [field];
    }
  }

  /** std::getline until the input ends: the last line needs no newline, unless it is empty. */
  function Lines(text: string): seq<string> {
    LinesFrom("", text)
  }

  function LinesFrom(line: string, text: string): seq<string>
    decreases |text|
  {
    if text == "" then if line == "" then [] else [line]
    else if text[0] == '\n' then [line] + LinesFrom("", text[1..])
    else LinesFrom(line + [text[0]], text[1..])
  }

  function Parse(line: string): seq<string> {
    Scan(line, "", false, [])
  }

  function ParseAll(lines: seq<string>): seq<seq<string>> {
    if lines == [] then [] else [Parse(lines[0])] + ParseAll(lines[1..])
  }

  // ----- one record

  function Texts(r: Record): seq<string> {
    if r == [] then [] else [Text(r[0])] + Texts(r[1..])
  }

  /** A field ends where the line ends or a comma follows. */
  predicate EndsField(rest: string) {
    rest == "" || rest[0] == ','
  }

  lemma {:induction false} PlainIsRead(v: string, rest: string, field: string, values: seq<string>)
    requires !NeedsQuotes(v)
    ensures Scan(v + rest, field, false, values) == Scan(rest, field + v, false, values)
  {
    if v == "" {
      assert v + rest == rest && field + v == field;
    } else {
      assert v[0] != ',' && v[0] != '"';
      assert forall i :: 0 <= i < |v| - 1 ==> v[1..][i] == v[i + 1];
      assert (v + rest)[1..] == v[1..] + rest;
      PlainIsRead(v[1..], rest, field + [v[0]], values);
      assert field + [v[0]] + v[1..] == field + v;
    }
  }

  lemma {:induction false} EscapedIsRead(v: string, rest: string, field: string, values: seq<string>)
    requires rest == "" || rest[0] != '"'
    ensures Scan(Escape(v) + "\"" + rest, field, true, values) == Scan(rest, field + v, false, values)
  {
    var text := Escape(v) + "\"" + rest;
    if v == "" {
      assert text[1..] == rest && field + v == field;
    } else {
      var tail := Escape(v[1..]) + "\"" + rest;
      EscapedIsRead(v[1..], rest, field + [v[0]], values);
      assert field + [v[0]] + v[1..] == field + v;
      if v[0] == '"' {
        assert text == "\"\"" + tail && text[2..] == tail;
      } else {
        assert text == [v[0]] + tail && text[1..] == tail;
      }
    }
  }

  lemma OpensWithQuote(s: string, rest: string, values: seq<string>)
    ensures Scan("\"" + s + rest, "", false, values) == Scan(s + rest, "", true, values)
  {
    assert ("\"" + s + rest)[1..] == s + rest;
  }

  lemma WrittenIsRead(v: string, rest: string, values: seq<string>)
    requires EndsField(rest)
    ensures Scan(Written(v) + rest, "", false, values) == Scan(rest, v, false, values)
  {
    assert "" + v == v;
    if NeedsQuotes(v) {
      OpensWithQuote(Escape(v) + "\"", rest, values);
      EscapedIsRead(v, rest, "", values);
    } else {
      PlainIsRead(v, rest, "", values);
    }
  }

  lemma CommaIsRead(v: string, rest: string, values: seq<string>)
    ensures Scan("," + rest, v, false, values) == Scan(rest, "", false, values + [v])
  {
    assert ("," + rest)[1..] == rest;
  }

  lemma LastField(v: string, values: seq<string>)
    ensures Scan("", v, false, values) == values + [v]
  {
  }

  lemma {:induction false} RecordIsRead(r: Record, values: seq<string>)
    requires r != []
    ensures Scan(Line(r), "", false, values) == values + Texts(r)
    decreases |r|
  {
    hide Written, Scan;
    var v := Text(r[0]);
    if |r| == 1 {
      assert Line(r) == Written(v) + "";
      WrittenIsRead(v, "", values);
      LastField(v, values);
      assert r[1..] == [];
    } else {
      var rest := Line(r[1..]);
      Assoc(Written(v), ",", rest);
      WrittenIsRead(v, "," + rest, values);
      CommaIsRead(v, rest, values);
      RecordIsRead(r[1..], values + [v]);
      OneMoreText(r, values);
    }
  }

  lemma OneMoreText(r: Record, values: seq<string>)
    requires r != []
    ensures values + [Text(r[0])] + Texts(r[1..]) == values + Texts(r)
  {
  }

  /** Parsing the line written for a record of at least one field gives its texts back. */
  lemma LineRoundTrip(r: Record)
    requires r != []
    ensures Parse(Line(r)) == Texts(r)
  {
    RecordIsRead(r, []);
  }

  // ----- whole files

  function Newlines(s: string): nat {
    if s == "" then 0 else (if s[0] == '\n' then 1 else 0) + Newlines(s[1..])
  }

  lemma {:induction false} NewlinesAdd(s: string, t: string)
    ensures Newlines(s + t) == Newlines(s) + Newlines(t)
  {
    if s == "" {
      assert s + t == t;
    } else {
      assert (s + t)[1..] == s[1..] + t;
      NewlinesAdd(s[1..], t);
    }
  }

  lemma {:induction false} LinesCount(line: string, text: string)
    requires text != "" && text[|text| - 1] == '\n'
    ensures |LinesFrom(line, text)| == Newlines(text)
    decreases |text|
  {
    if |text| > 1 {
      LinesCount(if text[0] == '\n' then "" else line + [text[0]], text[1..]);
    } else {
      assert text[1..] == "";
    }
  }

  lemma {:induction false} EscapeNewlines(v: string)
    ensures Newlines(Escape(v)) == Newlines(v)
  {
    if v != "" {
      EscapeNewlines(v[1..]);
      NewlinesAdd(if v[0] == '"' then "\"\"" else [v[0]], Escape(v[1..]));
      assert Newlines("\"\"") == 0 by { assert "\"\""[1..] == "\""; }
      assert [v[0]][1..] == "";
    }
  }

  lemma WrittenNewlines(v: string)
    ensures Newlines(Written(v)) == Newlines(v)
  {
    EscapeNewlines(v);
    NewlinesAdd(Escape(v), "\"");
    NewlinesAdd("\"", Escape(v) + "\"");
    assert Newlines("\"") == 0;
  }

  function RecordNewlines(r: Record): nat {
    if r == [] then 0 else Newlines(Text(r[0])) + RecordNewlines(r[1..])
  }

  lemma {:induction false} LineNewlines(r: Record)
    ensures Newlines(Line(r)) == RecordNewlines(r)
  {
    if r != [] {
      WrittenNewlines(Text(r[0]));
      LineNewlines(r[1..]);
      if |r| > 1 {
        NewlinesAdd(Written(Text(r[0])), ",");
        NewlinesAdd(Written(Text(r[0])) + ",", Line(r[1..]));
        assert Newlines(",") == 0;
      }
    }
  }

  function FileNewlines(records: seq<Record>): nat {
    if records == [] then 0 else RecordNewlines(records[0]) + FileNewlines(records[1..])
  }

  lemma {:induction false} FileCount(records: seq<Record>)
    ensures Newlines(File(records)) == |records| + FileNewlines(records)
    ensures records != [] ==> File(records) != "" && File(records)[|File(records)| - 1] == '\n'
  {
    if records != [] {
      FileCount(records[1..]);
      LineNewlines(records[0]);
      NewlinesAdd(Line(records[0]), "\n");
      NewlinesAdd(Line(records[0]) + "\n", File(records[1..]));
      assert Newlines("\n") == 1;
    }
  }

  lemma {:induction false} FirstLine(line: string, s: string, text: string)
    requires Newlines(s) == 0
    ensures LinesFrom(line, s + "\n" + text) == [line + s] + LinesFrom("", text)
    decreases |s|
  {
    var whole := s + "\n" + text;
    if s == "" {
      assert whole[1..] == text && line + s == line;
    } else {
      assert whole[1..] == s[1..] + "\n" + text;
      FirstLine(line + [s[0]], s[1..], text);
      assert line + [s[0]] + s[1..] == line + s;
    }
  }

  function AllTexts(records: seq<Record>): seq<seq<string>> {
    if records == [] then [] else [Texts(records[0])] + AllTexts(records[1..])
  }

  lemma {:induction false} LineByLine(records: seq<Record>)
    requires FileNewlines(records) == 0 && forall k :: 0 <= k < |records| ==> records[k] != []
    ensures ParseAll(Lines(File(records))) == AllTexts(records)
    decreases |records|
  {
    if records != [] {
      var rest := File(records[1..]);
      LineNewlines(records[0]);
      FirstLine("", Line(records[0]), rest);
      assert "" + Line(records[0]) == Line(records[0]);
      LineRoundTrip(records[0]);
      LineByLine(records[1..]);
      assert Lines(File(records)) == [Line(records[0])] + Lines(rest);
    }
  }

  lemma {:induction false} ParseAllLength(lines: seq<string>)
    ensures |ParseAll(lines)| == |lines|
  {
    if lines != [] {
      ParseAllLength(lines[1..]);
    }
  }

  lemma {:induction false} AllTextsLength(records: seq<Record>)
    ensures |AllTexts(records)| == |records|
  {
    if records != [] {
      AllTextsLength(records[1..]);
    }
  }

  predicate NewlineFree(records: seq<Record>) {
    forall k, i :: 0 <= k < |records| && 0 <= i < |records[k]| ==> '\n' !in Text(records[k][i])
  }

  lemma {:induction false} NoNewlineMeans(records: seq<Record>)
    ensures FileNewlines(records) == 0 <==> NewlineFree(records)
  {
    if records != [] {
      NoNewlineMeans(records[1..]);
      RecordNewlinesMean(records[0]);
      assert forall k :: 1 <= k < |records| ==> records[k] == records[1..][k - 1];
      assert forall k :: 0 <= k < |records| - 1 ==> records[1..][k] == records[k + 1];
    }
  }

  lemma {:induction false} RecordNewlinesMean(r: Record)
    ensures RecordNewlines(r) == 0 <==> forall i :: 0 <= i < |r| ==> '\n' !in Text(r[i])
  {
    if r != [] {
      RecordNewlinesMean(r[1..]);
      NewlinesMean(Text(r[0]));
      assert forall k :: 1 <= k < |r| ==> r[k] == r[1..][k - 1];
      assert forall k :: 0 <= k < |r| - 1 ==> r[1..][k] == r[k + 1];
    }
  }

  lemma {:induction false} NewlinesMean(s: string)
    ensures Newlines(s) == 0 <==> '\n' !in s
  {
    if s != "" {
      NewlinesMean(s[1..]);
      assert s == [s[0]] + s[1..];
    }
  }

  /** The rows that are read are as many as were written exactly when no field contains a newline:
      the reader cuts lines before it looks at quotes. */
  lemma RowCount(records: seq<Record>)
    ensures |ParseAll(Lines(File(records)))| == |records| <==> NewlineFree(records)
  {
    NoNewlineMeans(records);
    FileCount(records);
    ParseAllLength(Lines(File(records)));
    if records != [] {
      LinesCount("", File(records));
    }
  }

  /** The texts of rows with at least one field each are read back row by row exactly when no
      field contains a newline. */
  lemma FileRoundTrip(records: seq<Record>)
    requires forall k :: 0 <= k < |records| ==> records[k] != []
    ensures ParseAll(Lines(File(records))) == AllTexts(records) <==> NewlineFree(records)
  {
    RowCount(records);
    AllTextsLength(records);
    NoNewlineMeans(records);
    if NewlineFree(records) {
      LineByLine(records);
    }
  }

  // ----- the header line

  /** The reader of the header: like that of the rows, but a doubled quote means nothing. */
  function HeaderScan(rest: string, field: string, quoted: bool, columns: seq<string>): seq<string>
    decreases |rest|
  {
    if rest == "" then
      columns + [if quoted then field + "," else field]
    else if rest[0] == '"' then HeaderScan(rest[1..], field, !quoted, columns)
    else if rest[0] == ',' && !quoted then HeaderScan(rest[1..], "", quoted, columns + [field])
    else HeaderScan(rest[1..], field + [rest[0]], quoted, columns)
  }

  method ParseHeader(line: string) returns (columns: seq<string>)
    ensures columns == HeaderScan(line, "", false, [])
  {
    columns := [];
    ghost var goal := HeaderScan(line, "", false, []);
    var field, quoted, i := "", false, 0;
    assert line[0..] == line;
    while i <= |line|
      invariant 0 <= i <= |line| + 1
      invariant i <= |line| ==> HeaderScan(line[i..], field, quoted, columns) == goal
      invariant i > |line| ==> goal == if field != "" || columns == [] then columns + [field] else columns
    {
      var c := if i < |line| then line[i] else ',';
      if i < |line| {
        assert line[i..][1..] == line[i + 1..];
      }
      if c == '"' {
        quoted := !quoted;
      } else if c == ',' && !quoted {
        columns := columns + [field];
        field := "";
      } else {
        field := field + [c];
      }
      i := i + 1;
    }
    if field != "" || columns == [] {
      columns := columns + [field];
    }
  }

  function Header(names: seq<string>): Record {
    seq(|names|, k requires 0 <= k < |names| => Some(names[k]))
  }

  lemma {:induction false} UnescapedIsItself(v: string)
    requires '"' !in v
    ensures Escape(v) == v
  {
    if v != "" {
      UnescapedIsItself(v[1..]);
      assert v == [v[0]] + v[1..];
    }
  }

  lemma {:induction false} HeaderTextIsRead(v: string, rest: string, field: string, quoted: bool, columns: seq<string>)
    requires '"' !in v && (quoted || ',' !in v)
    ensures HeaderScan(v + rest, field, quoted, columns) == HeaderScan(rest, field + v, quoted, columns)
  {
    if v == "" {
      assert v + rest == rest && field + v == field;
    } else {
      assert (v + rest)[1..] == v[1..] + rest && (v + rest)[0] == v[0];
      HeaderTextIsRead(v[1..], rest, field + [v[0]], quoted, columns);
      assert field + [v[0]] + v[1..] == field + v;
    }
  }

  lemma WrittenNameIsRead(v: string, rest: string, columns: seq<string>)
    requires '"' !in v
    ensures HeaderScan(Written(v) + rest, "", false, columns) == HeaderScan(rest, v, false, columns)
  {
    assert "" + v == v;
    if NeedsQuotes(v) {
      UnescapedIsItself(v);
      var text := "\"" + (v + ("\"" + rest));
      assert Written(v) + rest == text && text[1..] == v + ("\"" + rest);
      HeaderTextIsRead(v, "\"" + rest, "", true, columns);
      assert ("\"" + rest)[1..] == rest;
    } else {
      HeaderTextIsRead(v, rest, "", false, columns);
    }
  }

  predicate QuoteFree(names: seq<string>) {
    forall k :: 0 <= k < |names| ==> '"' !in names[k]
  }

  lemma {:induction false} NamesAreRead(names: seq<string>, columns: seq<string>)
    requires names != [] && QuoteFree(names)
    ensures HeaderScan(Line(Header(names)), "", false, columns) == columns + names
    decreases |names|
  {
    hide Written;
    var v := names[0];
    var header := Header(names);
    assert header[1..] == Header(names[1..]);
    assert names == [v] + names[1..];
    if |names| == 1 {
      assert Line(header) == Written(v) + "";
      WrittenNameIsRead(v, "", columns);
    } else {
      var rest := Line(Header(names[1..]));
      Assoc(Written(v), ",", rest);
      WrittenNameIsRead(v, "," + rest, columns);
      assert ("," + rest)[1..] == rest;
      NamesAreRead(names[1..], columns + [v]);
      assert columns + [v] + names[1..] == columns + names;
    }
  }

  predicate NoneHolds(xs: seq<string>, c: char) {
    forall k :: 0 <= k < |xs| ==> c !in xs[k]
  }

  /** No name that is read holds a quote, or a newline if the line has none. */
  lemma {:induction false} NamesReadArePlain(rest: string, field: string, quoted: bool, columns: seq<string>, c: char)
    requires c != ',' && (c == '"' || c !in rest)
    requires c !in field && NoneHolds(columns, c)
    ensures NoneHolds(HeaderScan(rest, field, quoted, columns), c)
    decreases |rest|
  {
    if rest != "" {
      if rest[0] == '"' {
        NamesReadArePlain(rest[1..], field, !quoted, columns, c);
      } else if rest[0] == ',' && !quoted {
        NamesReadArePlain(rest[1..], "", quoted, columns + [field], c);
        assert HeaderScan(rest, field, quoted, columns) == HeaderScan(rest[1..], "", quoted, columns + [field]);
      } else {
        NamesReadArePlain(rest[1..], field + [rest[0]], quoted, columns, c);
      }
    }
  }

  /** The file that an export writes: the column names, and then the rows. */
  function Exported(names: seq<string>, records: seq<Record>): string {
    Line(Header(names)) + "\n" + File(records)
  }

  /** What an import reads: the column names, and the texts of the rows. */
  function Imported(text: string): Option<(seq<string>, seq<seq<string>>)> {
    var lines := Lines(text);
    if lines == [] then None else Some((HeaderScan(lines[0], "", false, []), ParseAll(lines[1..])))
  }

  lemma {:induction false} LinesHaveNoNewline(line: string, text: string)
    requires '\n' !in line
    ensures forall k :: 0 <= k < |LinesFrom(line, text)| ==> '\n' !in LinesFrom(line, text)[k]
    decreases |text|
  {
    if text != "" {
      LinesHaveNoNewline(if text[0] == '\n' then "" else line + [text[0]], text[1..]);
    }
  }

  lemma PlainHeaderLine(names: seq<string>, records: seq<Record>)
    requires forall k :: 0 <= k < |names| ==> '\n' !in names[k]
    ensures Lines(Exported(names, records)) == [Line(Header(names))] + Lines(File(records))
  {
    var header := Header(names);
    LineNewlines(header);
    RecordNewlinesMean(header);
    FirstLine("", Line(header), File(records));
    assert "" + Line(header) == Line(header);
  }

  predicate PlainNames(names: seq<string>) {
    forall k :: 0 <= k < |names| ==> '"' !in names[k] && '\n' !in names[k]
  }

  lemma PlainNamesAreImported(names: seq<string>, records: seq<Record>)
    requires names != [] && PlainNames(names)
    ensures Imported(Exported(names, records)) == Some((names, ParseAll(Lines(File(records)))))
  {
    var text := Exported(names, records);
    PlainHeaderLine(names, records);
    NamesAreRead(names, []);
    assert Lines(text)[1..] == Lines(File(records));
    assert [] + names == names;
  }

  lemma ImportedNamesArePlain(text: string)
    requires Imported(text).Some?
    ensures PlainNames(Imported(text).value.0)
  {
    LinesHaveNoNewline("", text);
    var line := Lines(text)[0];
    NamesReadArePlain(line, "", false, [], '"');
    NamesReadArePlain(line, "", false, [], '\n');
  }

  /** Without columns the import finds one, of an empty name. */
  lemma NoColumnsAreNotImported(records: seq<Record>)
    ensures Imported(Exported([], records)).Some? && Imported(Exported([], records)).value.0 == [""]
  {
    PlainHeaderLine([], records);
  }

  /** The column names and the texts of a whole exported file are read back exactly when there is a
      column, no column name holds a quote or a newline, and no field holds a newline. */
  lemma CopyRoundTrip(names: seq<string>, records: seq<Record>)
    requires forall k :: 0 <= k < |records| ==> |records[k]| == |names|
    ensures Imported(Exported(names, records)) == Some((names, AllTexts(records)))
      <==> names != [] && PlainNames(names) && NewlineFree(records)
  {
    if names == [] {
      NoColumnsAreNotImported(records);
    } else if PlainNames(names) {
      PlainNamesAreImported(names, records);
      FileRoundTrip(records);
    } else if Imported(Exported(names, records)).Some? {
      ImportedNamesArePlain(Exported(names, records));
    }
  }

  /** So the name of a column loses its quotes. */
  lemma QuotedNameIsChanged()
    ensures Imported(Exported(["a\"b"], [])) != Some((["a\"b"], []))
  {
    var v := "a\"b";
    var names := [v];
    assert '"' == v[1] && '"' in names[0];
    CopyRoundTrip(names, []);
  }

  // ----- the statements of the import

  /** The names from the i-th on, separator first unless at the start. */
  function ColumnList(columns: seq<string>, i: nat): string
    requires i <= |columns|
    decreases |columns| - i
  {
    if i == |columns| then "" else (if i > 0 then ", " else "") + (columns[i] + ColumnList(columns, i + 1))
  }

  method BuildInsertBase(table: string, columns: seq<string>) returns (base: string)
    ensures base == "INSERT INTO " + table + " (" + ColumnList(columns, 0) + ") VALUES ("
  {
    var front := "INSERT INTO " + table + " (";
    base := front;
    for i := 0 to |columns|
      invariant base + ColumnList(columns, i) == front + ColumnList(columns, 0)
    {
      var separator := if i > 0 then ", " else "";
      assert separator + (columns[i] + ColumnList(columns, i + 1)) == ColumnList(columns, i);
      base := base + separator + columns[i];
    }
    assert base + "" == base;
    base := base + ") VALUES (";
  }

  lemma {:induction false} OnePart(s: string)
    ensures |TextSplit.Split(s, ',')| == 1 <==> ',' !in s
  {
    if s != "" {
      OnePart(s[1..]);
      assert s == [s[0]] + s[1..];
    }
  }

  lemma {:induction false} PartsAdd(a: string, b: string)
    ensures |TextSplit.Split(a + "," + b, ',')| == |TextSplit.Split(a, ',')| + |TextSplit.Split(b, ',')|
  {
    var whole := a + "," + b;
    if a == "" {
      assert whole[1..] == b;
    } else {
      assert whole[1..] == a[1..] + "," + b;
      PartsAdd(a[1..], b);
    }
  }

  lemma {:induction false} ColumnListFrom(columns: seq<string>, i: nat)
    requires i < |columns|
    ensures var list := columns[i] + ColumnList(columns, i + 1);
      && |TextSplit.Split(list, ',')| >= |columns| - i
      && (|TextSplit.Split(list, ',')| == |columns| - i <==> NoneHolds(columns[i..], ','))
    decreases |columns| - i
  {
    OnePart(columns[i]);
    assert columns[i..] == [columns[i]] + columns[i + 1..];
    if i + 1 == |columns| {
      assert columns[i] + "" == columns[i];
    } else {
      var later := columns[i + 1] + ColumnList(columns, i + 2);
      assert columns[i] + (", " + later) == columns[i] + "," + (" " + later);
      PartsAdd(columns[i], " " + later);
      assert (" " + later)[1..] == later;
      ColumnListFrom(columns, i + 1);
      NoneHoldsCons(columns[i..], ',');
      assert columns[i..][1..] == columns[i + 1..];
    }
  }

  lemma NoneHoldsCons(xs: seq<string>, c: char)
    requires xs != []
    ensures NoneHolds(xs, c) <==> c !in xs[0] && NoneHolds(xs[1..], c)
  {
    assert forall k :: 1 <= k < |xs| ==> xs[k] == xs[1..][k - 1];
    assert forall k :: 0 <= k < |xs| - 1 ==> xs[1..][k] == xs[k + 1];
  }

  /** The names stand in the statement as they are: its column list has one part for each name
      exactly when no name holds a comma. */
  lemma ColumnListParts(columns: seq<string>)
    requires columns != []
    ensures |TextSplit.Split(ColumnList(columns, 0), ',')| == |columns| <==> NoneHolds(columns, ',')
  {
    ColumnListFrom(columns, 0);
    assert columns[0..] == columns;
    assert ColumnList(columns, 0) == columns[0] + ColumnList(columns, 1);
  }

  /** What the import makes of a text. */
  function Value(t: string): Field {
    if t == "" then None else Some(t)
  }

  function Values(ts: seq<string>): (r: Record)
    ensures |r| == |ts|
  {
    seq(|ts|, k requires 0 <= k < |ts| => Value(ts[k]))
  }

  function Doubled(v: string): string {
    if v == "" then "" else (if v[0] == '\'' then "''" else [v[0]]) + Doubled(v[1..])
  }

  function Literal(t: string): string {
    if t == "" then "NULL" else "'" + (Doubled(t) + "'")
  }

  /** The literals from the i-th on, separator first unless at the start. */
  function Literals(values: seq<string>, i: nat): string
    requires i <= |values|
    decreases |values| - i
  {
    if i == |values| then "" else (if i > 0 then ", " else "") + (Literal(values[i]) + Literals(values, i + 1))
  }

  lemma DoubledAt(v: string, i: nat)
    requires i < |v|
    ensures Doubled(v[i..]) == (if v[i] == '\'' then "''" else [v[i]]) + Doubled(v[i + 1..])
  {
    assert v[i..][1..] == v[i + 1..];
  }

  lemma DoubledEnds(v: string, escaped: string)
    ensures escaped + Doubled(v[|v|..]) == escaped
  {
  }

  method EscapeQuotes(v: string) returns (escaped: string)
    ensures escaped == Doubled(v)
  {
    hide Doubled;
    escaped := "";
    assert v[0..] == v;
    for i := 0 to |v|
      invariant escaped + Doubled(v[i..]) == Doubled(v)
    {
      ghost var later := Doubled(v[i + 1..]);
      DoubledAt(v, i);
      if v[i] == '\'' {
        Assoc(escaped, "''", later);
        escaped := escaped + "''";
      } else {
        Assoc(escaped, [v[i]], later);
        escaped := escaped + [v[i]];
      }
    }
    DoubledEnds(v, escaped);
  }

  method BuildInsert(base: string, values: seq<string>) returns (sql: string)
    ensures sql == base + Literals(values, 0) + ")"
  {
    hide Doubled, Literal;
    sql := base;
    for i := 0 to |values|
      invariant sql + Literals(values, i) == base + Literals(values, 0)
    {
      var separator := if i > 0 then ", " else "";
      var literal := BuildLiteral(values[i]);
      assert sql + separator + literal + Literals(values, i + 1) == sql + Literals(values, i) by {
        assert separator + (literal + Literals(values, i + 1)) == Literals(values, i);
      }
      sql := sql + separator + literal;
    }
    assert sql + "" == sql;
    sql := sql + ")";
  }

  method BuildLiteral(v: string) returns (literal: string)
    ensures literal == Literal(v)
  {
    if v == "" {
      return "NULL";
    }
    var escaped := EscapeQuotes(v);
    return "'" + (escaped + "'");
  }

  /** A string literal of SQL behind its opening quote, and the text behind it. */
  function ReadQuoted(s: string, text: string): (r: Option<(Field, string)>)
    ensures r.Some? ==> |r.value.1| < |s|
    decreases |s|
  {
    if s == "" then None
    else if s[0] != '\'' then ReadQuoted(s[1..], text + [s[0]])
    else if |s| > 1 && s[1] == '\'' then ReadQuoted(s[2..], text + "'")
    else Some((Some(text), s[1..]))
  }

  function ReadLiteral(s: string): (r: Option<(Field, string)>)
    ensures r.Some? ==> |r.value.1| < |s|
  {
    if "NULL" <= s then Some((None, s[4..]))
    else if s != "" && s[0] == '\'' then ReadQuoted(s[1..], "")
    else None
  }

  /** A list of literals that ends with the closing parenthesis, as a server reads it. */
  function ReadLiterals(s: string): Option<Record>
    decreases |s|
  {
    var one := ReadLiteral(s);
    if one.None? then None
    else
      var (f, rest) := one.value;
      if rest == ")" then Some([f])
      else if !(", " <= rest) then None
      else
        var more := ReadLiterals(rest[2..]);
        if more.None? then None else Some([f] + more.value)
  }

  lemma {:induction false} DoubledIsRead(v: string, rest: string, text: string)
    requires rest != "" && rest[0] != '\''
    ensures ReadQuoted(Doubled(v) + "'" + rest, text) == Some((Some(text + v), rest))
  {
    var whole := Doubled(v) + "'" + rest;
    if v == "" {
      assert whole[1..] == rest && text + v == text;
    } else {
      var tail := Doubled(v[1..]) + "'" + rest;
      DoubledIsRead(v[1..], rest, text + [v[0]]);
      assert text + [v[0]] + v[1..] == text + v;
      if v[0] == '\'' {
        assert whole == "''" + tail && whole[2..] == tail;
      } else {
        assert whole == [v[0]] + tail && whole[1..] == tail;
      }
    }
  }

  lemma LiteralIsRead(t: string, rest: string)
    requires rest != "" && rest[0] != '\''
    ensures ReadLiteral(Literal(t) + rest) == Some((Value(t), rest))
  {
    hide Doubled, ReadQuoted;
    if t == "" {
      assert ("NULL" + rest)[4..] == rest;
    } else {
      QuotedOpens(Doubled(t), rest);
      DoubledIsRead(t, rest, "");
      assert "" + t == t;
    }
  }

  lemma QuotedOpens(body: string, rest: string)
    ensures ReadLiteral("'" + (body + "'") + rest) == ReadQuoted(body + "'" + rest, "")
  {
    hide ReadQuoted;
    var inside := body + "'" + rest;
    Assoc("'", body + "'", rest);
    assert ("'" + inside)[1..] == inside && ("'" + inside)[0] == '\'';
  }

  lemma {:induction false} LiteralsAreRead(values: seq<string>, i: nat)
    requires i < |values|
    ensures ReadLiterals(Literal(values[i]) + (Literals(values, i + 1) + ")")) == Some(Values(values)[i..])
    decreases |values| - i
  {
    hide Literal, ReadLiteral;
    var rest := Literals(values, i + 1) + ")";
    if i + 1 == |values| {
      assert rest == ")";
      LiteralIsRead(values[i], rest);
      assert Values(values)[i..] == [Value(values[i])];
    } else {
      var later := Literal(values[i + 1]) + (Literals(values, i + 2) + ")");
      assert rest == ", " + later && rest[2..] == later;
      LiteralIsRead(values[i], rest);
      LiteralsAreRead(values, i + 1);
      assert Values(values)[i..] == [Value(values[i])] + Values(values)[i + 1..];
    }
  }

  lemma FirstLiteral(values: seq<string>)
    requires values != []
    ensures Literals(values, 0) + ")" == Literal(values[0]) + (Literals(values, 1) + ")")
  {
    hide Literal;
  }

  /** A server reads the literals of the statement as the values: quotes in a text do no harm, and
      an empty text is NULL. */
  lemma InsertedValues(values: seq<string>)
    requires values != []
    ensures ReadLiterals(Literals(values, 0) + ")") == Some(Values(values))
  {
    hide ReadLiterals, Literal;
    LiteralsAreRead(values, 0);
    FirstLiteral(values);
    assert Values(values)[0..] == Values(values);
  }

  // ----- whole imports

  function AllValues(rows: seq<seq<string>>): (r: seq<Record>)
    ensures |r| == |rows|
  {
    seq(|rows|, k requires 0 <= k < |rows| => Values(rows[k]))
  }

  /** The column names, and the rows of values that are inserted. */
  function Loaded(text: string): Option<(seq<string>, seq<Record>)> {
    var read := Imported(text);
    if read.None? then None else Some((read.value.0, AllValues(read.value.1)))
  }

  predicate NoEmptyStrings(records: seq<Record>) {
    forall k, i :: 0 <= k < |records| && 0 <= i < |records[k]| ==> records[k][i] != Some("")
  }

  lemma {:induction false} TextAt(r: Record, i: nat)
    requires i < |r|
    ensures |Texts(r)| == |r| && Texts(r)[i] == Text(r[i])
  {
    if |r| > 1 {
      TextAt(r[1..], if i > 0 then i - 1 else 0);
    }
  }

  lemma ValuesOfTexts(r: Record)
    ensures Values(Texts(r)) == r <==> forall i :: 0 <= i < |r| ==> r[i] != Some("")
  {
    forall i | 0 <= i < |r|
      ensures |Texts(r)| == |r| && Values(Texts(r))[i] == Value(Text(r[i]))
    {
      TextAt(r, i);
    }
  }

  lemma {:induction false} TextsAt(records: seq<Record>, k: nat)
    requires k < |records|
    ensures |AllTexts(records)| == |records| && AllTexts(records)[k] == Texts(records[k])
  {
    if |records| > 1 {
      TextsAt(records[1..], if k > 0 then k - 1 else 0);
    }
  }

  lemma AllValuesOfTexts(records: seq<Record>)
    ensures AllValues(AllTexts(records)) == records <==> NoEmptyStrings(records)
  {
    var values := AllValues(AllTexts(records));
    forall k | 0 <= k < |records|
      ensures |values| == |records|
      ensures values[k] == records[k] <==> forall i :: 0 <= i < |records[k]| ==> records[k][i] != Some("")
    {
      TextsAt(records, k);
      ValuesOfTexts(records[k]);
    }
    AllTextsLength(records);
  }

  /** Main result: the column names and the records of a whole exported file are loaded as they
      were exactly when there is a column, no column name holds a quote or a newline, no field holds
      a newline, and no field is the empty string, which is written like NULL. */
  lemma CopyRestoresRecords(names: seq<string>, records: seq<Record>)
    requires forall k :: 0 <= k < |records| ==> |records[k]| == |names|
    ensures Loaded(Exported(names, records)) == Some((names, records))
      <==> names != [] && PlainNames(names) && NewlineFree(records) && NoEmptyStrings(records)
  {
    AllValuesOfTexts(records);
    CopyRoundTrip(names, records);
    if names != [] && PlainNames(names) {
      PlainNamesAreImported(names, records);
      RowCount(records);
    } else if names == [] {
      NoColumnsAreNotImported(records);
    } else if Imported(Exported(names, records)).Some? {
      ImportedNamesArePlain(Exported(names, records));
    }
  }

  /** So an empty string comes back as NULL. */
  lemma EmptyStringBecomesNull()
    ensures Loaded(Exported(["a"], [[Some("")]])) == Some((["a"], [[None]]))
  {
    var names, lost: seq<Record>, kept: seq<Record> := ["a"], [[Some("")]], [[None]];
    assert Exported(names, lost) == Exported(names, kept) by {
      assert Line([Some("")]) == "" == Line([None]);
      assert lost[1..] == [] == kept[1..];
    }
    assert "a" == ['a'] && PlainNames(names) && NewlineFree(kept) && NoEmptyStrings(kept);
    CopyRestoresRecords(names, kept);
  }
}
