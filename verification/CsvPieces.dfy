/** What the reader of CSV lines makes of any line: fields between commas, each made of quoted
    sections and bare characters, the last quote possibly left open. */
module CsvPieces {
  import opened Wrappers
  import opened CsvCopy

  datatype Section = Bare(c: char) | Quoted(text: string)

  function Spelt(s: Section): string {
    match s
    case Bare(c) => [c]
    case Quoted(text) => "\"" + (Escape(text) + "\"")
  }

  function SpeltField(ss: seq<Section>): string {
    if ss == [] then "" else Spelt(ss[0]) + SpeltField(ss[1..])
  }

  function SpeltLine(fs: seq<seq<Section>>): string
    requires fs != []
  {
    if |fs| == 1 then SpeltField(fs[0]) else SpeltField(fs[0]) + ("," + SpeltLine(fs[1..]))
  }

  /** A quote left open holds the rest of the line. */
  function Tail(open: Option<string>): string {
    if open.None? then "" else "\"" + Escape(open.value)
  }

  predicate Fits(s: Section, rest: string) {
    match s
    case Bare(c) => c != '"' && c != ','
    case Quoted(_) => !Begins(rest, '"')
  }

  predicate FieldFits(ss: seq<Section>, rest: string) {
    ss != [] ==> Fits(ss[0], SpeltField(ss[1..]) + rest) && FieldFits(ss[1..], rest)
  }

  predicate LineFits(fs: seq<seq<Section>>, tail: string)
    requires fs != []
  {
    if |fs| == 1 then FieldFits(fs[0], tail)
    else FieldFits(fs[0], "," + (SpeltLine(fs[1..]) + tail)) && LineFits(fs[1..], tail)
  }

  // ----- the texts

  function FieldText(ss: seq<Section>): string {
    if ss == [] then "" else (if ss[0].Bare? then [ss[0].c] else ss[0].text) + FieldText(ss[1..])
  }

  /** A quote left open takes in the comma that the end of the line counts as. */
  function LineTexts(fs: seq<seq<Section>>, open: Option<string>): seq<string>
    requires fs != []
  {
    if |fs| > 1 then [FieldText(fs[0])] + LineTexts(fs[1..], open)
    else [FieldText(fs[0]) + if open.None? then "" else open.value + ","]
  }

  // ----- reading

  lemma {:induction false} OpenIsRead(text: string, field: string, values: seq<string>)
    ensures Scan(Escape(text), field, true, values) == values + [field + (text + ",")]
  {
    var s := Escape(text);
    if text == "" {
      assert field + ("" + ",") == field + ",";
    } else {
      OpenIsRead(text[1..], field + [text[0]], values);
      assert field + [text[0]] + (text[1..] + ",") == field + (text + ",");
      if text[0] == '"' {
        assert s == "\"\"" + Escape(text[1..]) && s[2..] == Escape(text[1..]);
      } else {
        assert s[1..] == Escape(text[1..]);
      }
    }
  }

  lemma QuotedIsRead(text: string, rest: string, field: string, values: seq<string>)
    requires !Begins(rest, '"')
    ensures Scan(Spelt(Quoted(text)) + rest, field, false, values) == Scan(rest, field + text, false, values)
  {
    hide Escape;
    var inside := Escape(text) + "\"" + rest;
    Assoc("\"", Escape(text) + "\"", rest);
    assert ("\"" + inside)[1..] == inside;
    EscapedIsRead(text, rest, field, values);
  }

  lemma {:induction false} FieldIsRead(ss: seq<Section>, rest: string, field: string, values: seq<string>)
    requires FieldFits(ss, rest)
    ensures Scan(SpeltField(ss) + rest, field, false, values) == Scan(rest, field + FieldText(ss), false, values)
    decreases |ss|
  {
    if ss == [] {
      assert "" + rest == rest && field + "" == field;
    } else {
      var behind := SpeltField(ss[1..]) + rest;
      Assoc(Spelt(ss[0]), SpeltField(ss[1..]), rest);
      match ss[0] {
        case Bare(c) =>
          assert ([c] + behind)[1..] == behind;
          Assoc(field, [c], FieldText(ss[1..]));
          FieldIsRead(ss[1..], rest, field + [c], values);
        case Quoted(text) =>
          QuotedIsRead(text, behind, field, values);
          Assoc(field, text, FieldText(ss[1..]));
          FieldIsRead(ss[1..], rest, field + text, values);
      }
    }
  }

  lemma TailIsRead(field: string, open: Option<string>, values: seq<string>)
    ensures Scan(Tail(open), field, false, values)
         == values + [field + if open.None? then "" else open.value + ","]
  {
    if open.None? {
      assert field + "" == field;
    } else {
      assert ("\"" + Escape(open.value))[1..] == Escape(open.value);
      OpenIsRead(open.value, field, values);
    }
  }

  lemma {:induction false} FieldsAreRead(fs: seq<seq<Section>>, open: Option<string>, values: seq<string>)
    requires fs != [] && LineFits(fs, Tail(open))
    ensures Scan(SpeltLine(fs) + Tail(open), "", false, values) == values + LineTexts(fs, open)
    decreases |fs|
  {
    hide Scan, SpeltField, FieldText, FieldFits, Tail;
    var text := FieldText(fs[0]);
    assert "" + text == text;
    if |fs| == 1 {
      FieldIsRead(fs[0], Tail(open), "", values);
      TailIsRead(text, open, values);
    } else {
      var later := SpeltLine(fs[1..]) + Tail(open);
      Assoc(SpeltField(fs[0]), "," + SpeltLine(fs[1..]), Tail(open));
      Assoc(",", SpeltLine(fs[1..]), Tail(open));
      FieldIsRead(fs[0], "," + later, "", values);
      CommaIsRead(text, later, values);
      FieldsAreRead(fs[1..], open, values + [text]);
      Assoc(values, [text], LineTexts(fs[1..], open));
    }
  }

  /** Main result: a line is read as one text for each field, the quotes of its sections dropped, a
      doubled quote inside them read as one and a comma inside them as text. */
  lemma LineIsItsFields(fs: seq<seq<Section>>, open: Option<string>)
    requires fs != [] && LineFits(fs, Tail(open))
    ensures Parse(SpeltLine(fs) + Tail(open)) == LineTexts(fs, open)
  {
    FieldsAreRead(fs, open, []);
  }

  // ----- the lines that are written

  function Bares(v: string): (r: seq<Section>)
    ensures |r| == |v|
  {
    if v == "" then [] else [Bare(v[0])] + Bares(v[1..])
  }

  /** A text is quoted as a whole if it holds a comma, a quote or a newline, and bare otherwise. */
  function SectionsOf(v: string): seq<Section> {
    if ',' in v || '"' in v || '\n' in v then [Quoted(v)] else Bares(v)
  }

  function FieldsOf(texts: seq<string>): (r: seq<seq<Section>>)
    ensures |r| == |texts|
  {
    if texts == [] then [] else [SectionsOf(texts[0])] + FieldsOf(texts[1..])
  }

  lemma {:induction false} BaresAreSpelt(v: string)
    ensures SpeltField(Bares(v)) == v
  {
    if v != "" {
      BaresAreSpelt(v[1..]);
      assert v == [v[0]] + v[1..];
    }
  }

  lemma TextIsWritten(v: string)
    ensures Written(v) == SpeltField(SectionsOf(v))
  {
    if ',' in v || '"' in v || '\n' in v {
      assert NeedsQuotes(v);
      assert SpeltField([Quoted(v)]) == Spelt(Quoted(v)) + "";
    } else {
      BaresAreSpelt(v);
    }
  }

  /** The line of a record has a field for each of its texts, in order. */
  lemma {:induction false} LineIsWritten(r: Record)
    requires r != []
    ensures Line(r) == SpeltLine(FieldsOf(Texts(r)))
  {
    hide Written, SpeltField, SectionsOf, Text;
    TextIsWritten(Text(r[0]));
    assert Texts(r) == [Text(r[0])] + Texts(r[1..]);
    assert FieldsOf(Texts(r))[1..] == FieldsOf(Texts(r[1..]));
    if |r| > 1 {
      LineIsWritten(r[1..]);
      assert |Texts(r[1..])| > 0;
      Assoc(Written(Text(r[0])), ",", Line(r[1..]));
    } else {
      assert Texts(r[1..]) == [];
    }
  }

  // ----- every line is such fields

  /** What stands behind an opening quote, up to the quote that closes it if there is one. */
  lemma {:induction false} QuoteEnds(s: string) returns (text: string, closed: bool, rest: string)
    ensures s == if closed then Escape(text) + "\"" + rest else Escape(text)
    ensures closed ==> !Begins(rest, '"') && |rest| < |s|
    decreases |s|
  {
    if s == "" {
      text, closed, rest := "", false, "";
    } else if s[0] == '"' && !Begins(s[1..], '"') {
      text, closed, rest := "", true, s[1..];
      assert s == "" + "\"" + rest;
    } else {
      var front := if s[0] == '"' then "\"\"" else [s[0]];
      text, closed, rest := QuoteEnds(s[|front|..]);
      ghost var inner := text;
      text := [s[0]] + text;
      assert text[1..] == inner && Escape(text) == front + Escape(inner);
      assert s == front + s[|front|..];
      if closed {
        assert front + (Escape(inner) + "\"" + rest) == front + Escape(inner) + "\"" + rest;
      }
    }
  }

  lemma SectionIsSpelt(s: Section, fs: seq<seq<Section>>, tail: string)
    requires fs != []
    ensures SpeltLine([[s] + fs[0]] + fs[1..]) + tail == Spelt(s) + (SpeltLine(fs) + tail)
  {
    hide Spelt;
    var first := [s] + fs[0];
    var more := [first] + fs[1..];
    assert first[1..] == fs[0] && more[1..] == fs[1..] && more[0] == first && first[0] == s;
    assert SpeltField(first) == Spelt(s) + SpeltField(fs[0]);
    Assoc(Spelt(s), SpeltLine(fs), tail);
    if |fs| > 1 {
      Assoc(Spelt(s), SpeltField(fs[0]), "," + SpeltLine(fs[1..]));
    }
  }

  lemma SectionInFront(s: Section, fs: seq<seq<Section>>, tail: string)
    requires fs != [] && LineFits(fs, tail) && Fits(s, SpeltLine(fs) + tail)
    ensures var more := [[s] + fs[0]] + fs[1..];
      SpeltLine(more) + tail == Spelt(s) + (SpeltLine(fs) + tail) && LineFits(more, tail)
  {
    hide Fits, Spelt;
    SectionIsSpelt(s, fs, tail);
    var first := [s] + fs[0];
    var more := [first] + fs[1..];
    assert first[1..] == fs[0] && more[1..] == fs[1..] && more[0] == first && first[0] == s;
    if |fs| > 1 {
      var later := SpeltLine(fs[1..]);
      Assoc(SpeltField(fs[0]), "," + later, tail);
      Assoc(",", later, tail);
    }
  }

  lemma CommaInFront(fs: seq<seq<Section>>, tail: string)
    requires fs != []
    ensures SpeltLine([[]] + fs) + tail == "," + (SpeltLine(fs) + tail)
    ensures LineFits(fs, tail) ==> LineFits([[]] + fs, tail)
  {
    assert ([[]] + fs)[1..] == fs && ([[]] + fs)[0] == [];
    assert "" + ("," + SpeltLine(fs)) == "," + SpeltLine(fs);
    Assoc(",", SpeltLine(fs), tail);
  }

  /** Every line is fields that fit, with a quote left open behind them or none. */
  lemma {:induction false} EveryLineIsFields(line: string) returns (fs: seq<seq<Section>>, open: Option<string>)
    ensures fs != [] && line == SpeltLine(fs) + Tail(open) && LineFits(fs, Tail(open))
    decreases |line|
  {
    hide Spelt, Fits, LineFits, Tail, SpeltLine;
    var first, rest := FirstOfLine(line);
    match first {
      case Nothing(o) =>
        fs, open := [[]], o;
        NoFields(o);
      case Comma =>
        fs, open := EveryLineIsFields(rest);
        CommaInFront(fs, Tail(open));
        fs := [[]] + fs;
      case One(s) =>
        fs, open := EveryLineIsFields(rest);
        SectionInFront(s, fs, Tail(open));
        fs := [[s] + fs[0]] + fs[1..];
    }
  }

  datatype First = Nothing(open: Option<string>) | Comma | One(section: Section)

  /** What a line begins with. */
  lemma FirstOfLine(line: string) returns (first: First, rest: string)
    ensures first.Nothing? ==> line == Tail(first.open)
    ensures first.Comma? ==> line == "," + rest && |rest| < |line|
    ensures first.One? ==> line == Spelt(first.section) + rest && |rest| < |line| && Fits(first.section, rest)
  {
    rest := "";
    if line == "" {
      first := Nothing(None);
    } else if line[0] == ',' {
      first, rest := Comma, line[1..];
    } else if line[0] != '"' {
      first, rest := One(Bare(line[0])), line[1..];
    } else {
      var text, closed, behind := QuoteEnds(line[1..]);
      assert line == "\"" + line[1..];
      if closed {
        first, rest := One(Quoted(text)), behind;
        Assoc("\"", Escape(text) + "\"", rest);
      } else {
        first := Nothing(Some(text));
      }
    }
  }

  lemma NoFields(open: Option<string>)
    ensures SpeltLine([[]]) + Tail(open) == Tail(open) && LineFits([[]], Tail(open))
  {
    assert "" + Tail(open) == Tail(open);
  }

  // ----- the header line

  /** The reader of the header knows no doubled quote: a quoted section holds none, and another
      may follow at once. */
  predicate HeaderFits(s: Section) {
    match s
    case Bare(c) => c != '"' && c != ','
    case Quoted(text) => '"' !in text
  }

  predicate HeaderFieldFits(ss: seq<Section>) {
    forall i :: 0 <= i < |ss| ==> HeaderFits(ss[i])
  }

  predicate HeaderLineFits(fs: seq<seq<Section>>) {
    forall i :: 0 <= i < |fs| ==> HeaderFieldFits(fs[i])
  }

  lemma SectionOfHeader(s: Section, rest: string, field: string, columns: seq<string>)
    requires HeaderFits(s)
    ensures HeaderScan(Spelt(s) + rest, field, false, columns)
         == HeaderScan(rest, field + if s.Bare? then [s.c] else s.text, false, columns)
  {
    match s {
      case Bare(c) =>
        assert ([c] + rest)[1..] == rest;
      case Quoted(text) =>
        UnescapedIsItself(text);
        Assoc("\"", text + "\"", rest);
        Assoc(text, "\"", rest);
        assert ("\"" + (text + ("\"" + rest)))[1..] == text + ("\"" + rest) && ("\"" + rest)[1..] == rest;
        HeaderTextIsRead(text, "\"" + rest, field, true, columns);
    }
  }

  lemma {:induction false} FieldOfHeader(ss: seq<Section>, rest: string, field: string, columns: seq<string>)
    requires HeaderFieldFits(ss)
    ensures HeaderScan(SpeltField(ss) + rest, field, false, columns)
         == HeaderScan(rest, field + FieldText(ss), false, columns)
    decreases |ss|
  {
    hide HeaderScan, Spelt, HeaderFits;
    if ss == [] {
      assert "" + rest == rest && field + "" == field;
    } else {
      var behind := SpeltField(ss[1..]) + rest;
      var text := if ss[0].Bare? then [ss[0].c] else ss[0].text;
      Assoc(Spelt(ss[0]), SpeltField(ss[1..]), rest);
      SectionOfHeader(ss[0], behind, field, columns);
      Assoc(field, text, FieldText(ss[1..]));
      FieldOfHeader(ss[1..], rest, field + text, columns);
    }
  }

  lemma EndOfHeader(field: string, open: Option<string>, columns: seq<string>)
    requires open.Some? ==> '"' !in open.value
    ensures HeaderScan(Tail(open), field, false, columns)
         == columns + [field + if open.None? then "" else open.value + ","]
  {
    if open.None? {
      assert field + "" == field;
    } else {
      UnescapedIsItself(open.value);
      assert ("\"" + open.value)[1..] == open.value && open.value + "" == open.value;
      HeaderTextIsRead(open.value, "", field, true, columns);
      Assoc(field, open.value, ",");
    }
  }

  lemma {:induction false} HeaderFieldsAreRead(fs: seq<seq<Section>>, open: Option<string>, columns: seq<string>)
    requires fs != [] && HeaderLineFits(fs) && (open.Some? ==> '"' !in open.value)
    ensures HeaderScan(SpeltLine(fs) + Tail(open), "", false, columns) == columns + LineTexts(fs, open)
    decreases |fs|
  {
    hide HeaderScan, SpeltField, FieldText, HeaderFieldFits, Tail;
    var text := FieldText(fs[0]);
    assert "" + text == text;
    if |fs| == 1 {
      FieldOfHeader(fs[0], Tail(open), "", columns);
      EndOfHeader(text, open, columns);
    } else {
      var later := SpeltLine(fs[1..]) + Tail(open);
      Assoc(SpeltField(fs[0]), "," + SpeltLine(fs[1..]), Tail(open));
      Assoc(",", SpeltLine(fs[1..]), Tail(open));
      FieldOfHeader(fs[0], "," + later, "", columns);
      CommaOfHeader(text, later, columns);
      HeaderFieldsAreRead(fs[1..], open, columns + [text]);
      Assoc(columns, [text], LineTexts(fs[1..], open));
    }
  }

  lemma CommaOfHeader(v: string, rest: string, columns: seq<string>)
    ensures HeaderScan("," + rest, v, false, columns) == HeaderScan(rest, "", false, columns + [v])
  {
    assert ("," + rest)[1..] == rest;
  }

  /** A header line is read as one name for each field, with every quote dropped. */
  lemma HeaderIsItsFields(fs: seq<seq<Section>>, open: Option<string>)
    requires fs != [] && HeaderLineFits(fs) && (open.Some? ==> '"' !in open.value)
    ensures HeaderScan(SpeltLine(fs) + Tail(open), "", false, []) == LineTexts(fs, open)
  {
    HeaderFieldsAreRead(fs, open, []);
  }

  lemma {:induction false} QuoteAt(s: string) returns (n: nat)
    requires '"' in s
    ensures n < |s| && s[n] == '"' && '"' !in s[..n]
  {
    if s[0] == '"' {
      n := 0;
    } else {
      n := QuoteAt(s[1..]);
      n := n + 1;
      assert s[..n] == [s[0]] + s[1..][..n - 1];
    }
  }

  lemma HeaderSectionFits(s: Section, fs: seq<seq<Section>>)
    requires fs != [] && HeaderFits(s) && HeaderLineFits(fs)
    ensures HeaderLineFits([[s] + fs[0]] + fs[1..])
  {
    assert HeaderFieldFits(fs[0]);
  }

  /** Every header line is such fields. */
  lemma {:induction false} EveryHeaderIsFields(line: string) returns (fs: seq<seq<Section>>, open: Option<string>)
    ensures fs != [] && line == SpeltLine(fs) + Tail(open)
    ensures HeaderLineFits(fs) && (open.Some? ==> '"' !in open.value)
    decreases |line|
  {
    hide HeaderLineFits, Spelt;
    if line == "" || (line[0] == '"' && '"' !in line[1..]) {
      fs, open := [[]], if line == "" then None else Some(line[1..]);
      NoSections(line, open);
    } else {
      var s, rest := FirstOfHeader(line);
      fs, open := EveryHeaderIsFields(rest);
      if s.None? {
        CommaInFront(fs, Tail(open));
        CommaFits(fs);
        fs := [[]] + fs;
      } else {
        SectionIsSpelt(s.value, fs, Tail(open));
        HeaderSectionFits(s.value, fs);
        fs := [[s.value] + fs[0]] + fs[1..];
      }
    }
  }

  /** The section in front of a header line, or a comma. */
  lemma FirstOfHeader(line: string) returns (s: Option<Section>, rest: string)
    requires line != "" && (line[0] == '"' ==> '"' in line[1..])
    ensures |rest| < |line| && (s.Some? ==> HeaderFits(s.value))
    ensures line == (if s.None? then "," else Spelt(s.value)) + rest
  {
    if line[0] == ',' {
      s, rest := None, line[1..];
    } else if line[0] != '"' {
      s, rest := Some(Bare(line[0])), line[1..];
    } else {
      var n := QuoteAt(line[1..]);
      var text := line[1..][..n];
      s, rest := Some(Quoted(text)), line[n + 2..];
      UnescapedIsItself(text);
      assert line == "\"" + (text + "\"") + rest;
    }
  }

  lemma CommaFits(fs: seq<seq<Section>>)
    requires HeaderLineFits(fs)
    ensures HeaderLineFits([[]] + fs)
  {
    assert HeaderFieldFits([]);
  }

  lemma NoSections(line: string, open: Option<string>)
    requires line == "" || (line[0] == '"' && '"' !in line[1..])
    requires open == if line == "" then None else Some(line[1..])
    ensures line == SpeltLine([[]]) + Tail(open) && HeaderLineFits([[]])
  {
    if line != "" {
      UnescapedIsItself(line[1..]);
      assert line == "" + ("\"" + line[1..]);
    }
  }
}
