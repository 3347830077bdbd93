/** What the lexer of the interactive tools passes over: quoted text, comments and everything else
    that is no semicolon, spelt out piece by piece. */
module StatementLiterals {
  import opened Wrappers
  import opened StatementSplitter

  datatype Piece =
    | Plain(c: char)
    | SingleQuoted(text: string)    // a quote inside is doubled
    | DoubleQuoted(text: string)
    | Backticked(text: string)
    | DashComment(text: string)     // up to its newline
    | HashComment(text: string)
    | BlockComment(text: string)
    | DollarQuoted(tag: string, text: string)

  function Doubled(text: string): string {
    if text == "" then "" else (if text[0] == '\'' then "''" else [text[0]]) + Doubled(text[1..])
  }

  function Spelt(p: Piece): string {
    match p
    case Plain(c) => [c]
    case SingleQuoted(text) => "'" + (Doubled(text) + "'")
    case DoubleQuoted(text) => "\"" + (text + "\"")
    case Backticked(text) => "`" + (text + "`")
    case DashComment(text) => "--" + (text + "\n")
    case HashComment(text) => "#" + (text + "\n")
    case BlockComment(text) => "/*" + (text + "*/")
    case DollarQuoted(tag, text) => Tag(tag) + (text + Tag(tag))
  }

  function Tag(name: string): string {
    "$" + (name + "$")
  }

  /** Behind a '$' stand tag characters up to another '$'. */
  predicate OpensTag(rest: string) {
    exists n :: 0 <= n < |rest| && rest[n] == '$' && forall k :: 0 <= k < n ==> IsTagChar(rest[k])
  }

  /** `close` does not occur in `text + close` before its end. */
  predicate EndsFirst(text: string, close: string) {
    forall i :: 0 <= i < |text| ==> !(close <= (text + close)[i..])
  }

  /** The piece ends where it says, and a plain character opens nothing. */
  predicate Fits(p: Piece, rest: string, hash: bool) {
    match p
    case Plain(c) =>
      && c !in {';', '\'', '"', '`'}
      && (c == '-' ==> !Begins(rest, '-')) && (c == '/' ==> !Begins(rest, '*'))
      && (c == '#' ==> !hash) && (c == '$' ==> !OpensTag(rest))
    case SingleQuoted(_) => !Begins(rest, '\'')
    case DoubleQuoted(text) => '"' !in text
    case Backticked(text) => '`' !in text
    case DashComment(text) => '\n' !in text
    case HashComment(text) => hash && '\n' !in text
    case BlockComment(text) => EndsFirst(text, "*/")
    case DollarQuoted(tag, text) => (forall k :: 0 <= k < |tag| ==> IsTagChar(tag[k])) && EndsFirst(text, Tag(tag))
  }

  // ----- inside a piece

  /** One decision that does not end the statement. */
  lemma OneMove(t: string, m: Mode, n: nat, m': Mode, lex: Lexis)
    requires 1 <= n <= |t| && lex(t, m) == Move(n, m', false)
    ensures StatementEnd(t, m, lex) == Shift(n, StatementEnd(t[n..], m', lex))
  {
  }

  /** Characters that keep the mode, and a close that ends it. */
  lemma {:induction false} Through(text: string, close: string, rest: string, m: Mode, lex: Lexis)
    requires close != "" && lex(close + rest, m) == Move(|close|, Normal, false)
    requires forall i :: 0 <= i < |text| ==> lex((text + (close + rest))[i..], m) == Move(1, m, false)
    ensures StatementEnd(text + (close + rest), m, lex) == Shift(|text| + |close|, StatementEnd(rest, Normal, lex))
    decreases |text|
  {
    var t := text + (close + rest);
    if text == "" {
      assert t == close + rest && t[|close|..] == rest;
      OneMove(t, m, |close|, Normal, lex);
    } else {
      assert t[0..] == t;
      OneMove(t, m, 1, m, lex);
      var t1 := text[1..] + (close + rest);
      assert t[1..] == t1;
      forall i | 0 <= i < |text[1..]|
        ensures lex(t1[i..], m) == Move(1, m, false)
      {
        assert t1[i..] == t[i + 1..];
      }
      Through(text[1..], close, rest, m, lex);
    }
  }

  lemma OpenedBy(open: string, inside: string, m: Mode, n: nat, end: Option<nat>, lex: Lexis)
    requires open != "" && lex(open + inside, Normal) == Move(|open|, m, false)
    requires StatementEnd(inside, m, lex) == Shift(n, end)
    ensures StatementEnd(open + inside, Normal, lex) == Shift(|open| + n, end)
  {
    assert (open + inside)[|open|..] == inside;
    OneMove(open + inside, Normal, |open|, m, lex);
  }

  lemma SingleMoves(c: char, tail: string, hash: bool)
    ensures LexerOf(hash)("''" + tail, Single) == Move(2, Single, false)
    ensures c != '\'' ==> LexerOf(hash)([c] + tail, Single) == Move(1, Single, false)
    ensures !Begins(tail, '\'') ==> LexerOf(hash)("'" + tail, Single) == Move(1, Normal, false)
  {
    var t := "'" + tail;
    assert t[0] == '\'' && (tail != "" ==> t[1] == tail[0]);
  }

  lemma {:induction false} ThroughSingle(text: string, rest: string, hash: bool)
    requires !Begins(rest, '\'')
    ensures var lex := LexerOf(hash);
      StatementEnd(Doubled(text) + ("'" + rest), Single, lex)
        == Shift(|Doubled(text)| + 1, StatementEnd(rest, Normal, lex))
  {
    hide StatementEnd, LexerOf, Begins;
    var lex, t := LexerOf(hash), Doubled(text) + ("'" + rest);
    if text == "" {
      assert t == "'" + rest && t[1..] == rest;
      SingleMoves(' ', rest, hash);
      OneMove(t, Single, 1, Normal, lex);
    } else {
      var tail := Doubled(text[1..]) + ("'" + rest);
      var front := if text[0] == '\'' then "''" else [text[0]];
      Assoc(front, Doubled(text[1..]), "'" + rest);
      assert t[|front|..] == tail;
      SingleMoves(text[0], tail, hash);
      OneMove(t, Single, |front|, Single, lex);
      ThroughSingle(text[1..], rest, hash);
    }
  }

  // ----- pieces are passed over

  lemma SingleOpens(inside: string, hash: bool)
    ensures LexerOf(hash)("'" + inside, Normal) == Move(1, Single, false)
  {
  }

  lemma SingleIsSkipped(text: string, rest: string, hash: bool)
    requires !Begins(rest, '\'')
    ensures Skipped(SingleQuoted(text), rest, hash)
  {
    hide StatementEnd, LexerOf, Doubled;
    var lex, body := LexerOf(hash), Doubled(text);
    ThroughSingle(text, rest, hash);
    Assoc("'", body + "'", rest);
    Assoc(body, "'", rest);
    SingleOpens(body + ("'" + rest), hash);
    OpenedBy("'", body + ("'" + rest), Single, |body| + 1, StatementEnd(rest, Normal, lex), lex);
  }

  /** The text of the piece in front shifts the end of the statement by its length. */
  ghost predicate Skipped(p: Piece, rest: string, hash: bool) {
    StatementEnd(Spelt(p) + rest, Normal, LexerOf(hash)) == Shift(|Spelt(p)|, StatementEnd(rest, Normal, LexerOf(hash)))
  }

  /** A piece that is opened by `open` and closed by `close`. */
  lemma Enclosed(p: Piece, open: string, text: string, close: string, rest: string, m: Mode, hash: bool)
    requires Spelt(p) == open + (text + close) && open != "" && close != ""
    requires LexerOf(hash)(open + (text + (close + rest)), Normal) == Move(|open|, m, false)
    requires LexerOf(hash)(close + rest, m) == Move(|close|, Normal, false)
    requires forall i :: 0 <= i < |text| ==> LexerOf(hash)((text + (close + rest))[i..], m) == Move(1, m, false)
    ensures Skipped(p, rest, hash)
  {
    hide StatementEnd, LexerOf, Spelt;
    var lex := LexerOf(hash);
    Through(text, close, rest, m, lex);
    Assoc(open, text + close, rest);
    Assoc(text, close, rest);
    OpenedBy(open, text + (close + rest), m, |text| + |close|, StatementEnd(rest, Normal, lex), lex);
  }

  /** Inside a text that the character `close` ends, no other character does. */
  lemma OneCharacterCloses(text: string, close: char, rest: string, m: Mode, hash: bool)
    requires close !in text
    requires (m == Double && close == '"') || (m == Backtick && close == '`') || (m == LineComment && close == '\n')
    ensures LexerOf(hash)([close] + rest, m) == Move(1, Normal, false)
    ensures forall i :: 0 <= i < |text| ==> LexerOf(hash)((text + ([close] + rest))[i..], m) == Move(1, m, false)
  {
    forall i | 0 <= i < |text|
      ensures LexerOf(hash)((text + ([close] + rest))[i..], m) == Move(1, m, false)
    {
      assert (text + ([close] + rest))[i..][0] == text[i];
    }
  }

  lemma BlockIsSkipped(text: string, rest: string, hash: bool)
    requires EndsFirst(text, "*/")
    ensures Skipped(Piece.BlockComment(text), rest, hash)
  {
    var t := text + ("*/" + rest);
    forall i | 0 <= i < |text|
      ensures LexerOf(hash)(t[i..], Mode.BlockComment) == Move(1, Mode.BlockComment, false)
    {
      NotClosedAt(text, "*/", rest, i);
      assert t[i..][0] == t[i] && t[i..][1] == t[i + 1];
    }
    Enclosed(Piece.BlockComment(text), "/*", text, "*/", rest, Mode.BlockComment, hash);
  }

  lemma NotClosedAt(text: string, close: string, rest: string, i: nat)
    requires i < |text| && EndsFirst(text, close)
    ensures !(close <= (text + (close + rest))[i..])
  {
    var u := text + close;
    assert (text + (close + rest))[i..] == u[i..] + rest;
    PrefixWithin(close, u[i..], rest);
  }

  lemma PrefixWithin(p: string, s: string, t: string)
    requires |p| <= |s|
    ensures p <= s + t <==> p <= s
  {
    assert (s + t)[..|p|] == s[..|p|];
  }

  lemma DollarIsSkipped(tag: string, text: string, rest: string, hash: bool)
    requires Fits(DollarQuoted(tag, text), rest, hash)
    ensures Skipped(DollarQuoted(tag, text), rest, hash)
  {
    var close, m := Tag(tag), Dollar(Tag(tag));
    var t := text + (close + rest);
    TagIsRead(tag, t);
    forall i | 0 <= i < |text|
      ensures LexerOf(hash)(t[i..], m) == Move(1, m, false)
    {
      NotClosedAt(text, close, rest, i);
    }
    Enclosed(DollarQuoted(tag, text), close, text, close, rest, m, hash);
  }

  lemma TagIsRead(tag: string, t: string)
    requires forall k :: 0 <= k < |tag| ==> IsTagChar(tag[k])
    ensures NormalStep(Tag(tag) + t, true) == NormalStep(Tag(tag) + t, false)
         == Move(|Tag(tag)|, Dollar(Tag(tag)), false)
  {
    var whole := Tag(tag) + t;
    assert whole[1..] == tag + ("$" + t);
    TagBodyIs(whole[1..], |tag|);
    assert whole[..|tag| + 2] == Tag(tag);
  }

  lemma PlainIsSkipped(c: char, rest: string, hash: bool)
    requires Fits(Plain(c), rest, hash)
    ensures Skipped(Plain(c), rest, hash)
  {
    var t := [c] + rest;
    assert t[1..] == rest;
    if c == '$' {
      TagBodyOpens(rest);
    }
    OneMove(t, Normal, 1, Normal, LexerOf(hash));
  }

  lemma OpensTagBehind(rest: string)
    requires rest != "" && IsTagChar(rest[0]) && OpensTag(rest[1..])
    ensures OpensTag(rest)
  {
    var tail := rest[1..];
    var n :| 0 <= n < |tail| && tail[n] == '$' && forall k :: 0 <= k < n ==> IsTagChar(tail[k]);
    assert rest[n + 1] == '$' && forall k :: 1 <= k < n + 1 ==> rest[k] == tail[k - 1];
  }

  lemma {:induction false} TagBodyOpens(rest: string)
    ensures TagBody(rest).Some? ==> OpensTag(rest)
  {
    if rest != "" {
      if rest[0] == '$' {
        assert OpensTag(rest);
      } else if IsTagChar(rest[0]) {
        TagBodyOpens(rest[1..]);
        if OpensTag(rest[1..]) {
          OpensTagBehind(rest);
        }
      }
    }
  }

  /** Quoted text, comments and plain characters are passed over, whatever stands behind them. */
  lemma PieceIsSkipped(p: Piece, rest: string, hash: bool)
    requires Fits(p, rest, hash)
    ensures Skipped(p, rest, hash)
  {
    match p
    case Plain(c) => PlainIsSkipped(c, rest, hash);
    case SingleQuoted(text) => SingleIsSkipped(text, rest, hash);
    case DoubleQuoted(text) =>
      OneCharacterCloses(text, '"', rest, Double, hash);
      Enclosed(p, "\"", text, "\"", rest, Double, hash);
    case Backticked(text) =>
      OneCharacterCloses(text, '`', rest, Backtick, hash);
      Enclosed(p, "`", text, "`", rest, Backtick, hash);
    case DashComment(text) =>
      OneCharacterCloses(text, '\n', rest, LineComment, hash);
      Enclosed(p, "--", text, "\n", rest, LineComment, hash);
    case HashComment(text) =>
      OneCharacterCloses(text, '\n', rest, LineComment, hash);
      Enclosed(p, "#", text, "\n", rest, LineComment, hash);
    case BlockComment(text) => BlockIsSkipped(text, rest, hash);
    case DollarQuoted(tag, text) => DollarIsSkipped(tag, text, rest, hash);
  }

  // ----- statements made of pieces

  function SpeltAll(ps: seq<Piece>): string {
    if ps == [] then "" else Spelt(ps[0]) + SpeltAll(ps[1..])
  }

  predicate AllFit(ps: seq<Piece>, rest: string, hash: bool) {
    ps != [] ==> Fits(ps[0], SpeltAll(ps[1..]) + rest, hash) && AllFit(ps[1..], rest, hash)
  }

  lemma {:induction false} PiecesAreSkipped(ps: seq<Piece>, rest: string, hash: bool)
    requires AllFit(ps, rest, hash)
    ensures var lex := LexerOf(hash);
      StatementEnd(SpeltAll(ps) + rest, Normal, lex) == Shift(|SpeltAll(ps)|, StatementEnd(rest, Normal, lex))
  {
    hide StatementEnd, LexerOf, Spelt, Fits;
    if ps == [] {
      assert SpeltAll(ps) + rest == rest;
    } else {
      var later := SpeltAll(ps[1..]) + rest;
      PiecesAreSkipped(ps[1..], rest, hash);
      PieceIsSkipped(ps[0], later, hash);
      Assoc(Spelt(ps[0]), SpeltAll(ps[1..]), rest);
    }
  }

  lemma SemicolonEnds(later: string, hash: bool)
    ensures StatementEnd(";" + later, Normal, LexerOf(hash)) == Some(0)
    ensures StatementEnd("", Normal, LexerOf(hash)).None?
  {
  }

  /** Main result: a semicolon behind any pieces ends the statement, none inside a piece does, and
      without one there is no end. */
  lemma StatementIsItsPieces(ps: seq<Piece>, later: string, hash: bool)
    ensures AllFit(ps, ";" + later, hash) ==>
      Split(SpeltAll(ps) + (";" + later), LexerOf(hash)) == Record(Trim(SpeltAll(ps)), Split(later, LexerOf(hash)))
    ensures AllFit(ps, "", hash) ==> Split(SpeltAll(ps), LexerOf(hash)) == ([], SpeltAll(ps))
  {
    hide StatementEnd, LexerOf, SpeltAll, AllFit, Trim;
    var text := SpeltAll(ps);
    SemicolonEnds(later, hash);
    if AllFit(ps, ";" + later, hash) {
      PiecesAreSkipped(ps, ";" + later, hash);
      var t := text + (";" + later);
      assert t[..|text|] == text && t[|text| + 1..] == later;
    }
    if AllFit(ps, "", hash) {
      PiecesAreSkipped(ps, "", hash);
      assert text + "" == text;
    }
  }

  // ----- every statement is made of pieces

  /** In the mode `m` the text `close` leads back to normal, and anything else is passed over. */
  ghost predicate ClosedBy(m: Mode, close: string, hash: bool) {
    forall u: string :: u != "" ==>
      LexerOf(hash)(u, m) == if close <= u then Move(|close|, Normal, false) else Move(1, m, false)
  }

  lemma {:induction false} FindClose(t: string, m: Mode, close: string, hash: bool) returns (text: string, rest: string)
    requires close != "" && ClosedBy(m, close, hash) && StatementEnd(t, m, LexerOf(hash)).Some?
    ensures t == text + (close + rest) && EndsFirst(text, close)
    decreases |t|
  {
    hide LexerOf;
    var move := LexerOf(hash)(t, m);
    if close <= t {
      text, rest := "", t[|close|..];
    } else {
      text, rest := FindClose(t[1..], m, close, hash);
      EndsFirstBehind(t[0], text, close, rest);
      text := [t[0]] + text;
    }
  }

  lemma EndsFirstBehind(c: char, text: string, close: string, rest: string)
    requires close != "" && EndsFirst(text, close) && !(close <= [c] + (text + (close + rest)))
    ensures EndsFirst([c] + text, close)
    ensures [c] + (text + (close + rest)) == [c] + text + (close + rest)
  {
    var u := [c] + text + close;
    forall i | 0 <= i < |text| + 1
      ensures !(close <= u[i..])
    {
      if i == 0 {
        assert u[0..] == u && u + rest == [c] + (text + (close + rest));
        PrefixWithin(close, u, rest);
      } else {
        assert u[i..] == (text + close)[i - 1..];
      }
    }
  }

  lemma FirstCharacterCloses(text: string, c: char)
    ensures EndsFirst(text, [c]) <==> c !in text
  {
    var u := text + [c];
    assert forall i :: 0 <= i < |text| ==> u[i..][0] == text[i];
    assert forall i :: 0 <= i < |text| ==> ([c] <= u[i..] <==> text[i] == c);
  }

  lemma {:induction false} FindSingle(t: string, hash: bool) returns (text: string, rest: string)
    requires StatementEnd(t, Single, LexerOf(hash)).Some?
    ensures t == Doubled(text) + ("'" + rest) && !Begins(rest, '\'')
    decreases |t|
  {
    var tail := t[1..];
    assert t == [t[0]] + tail;
    if t[0] != '\'' {
      text, rest := FindSingle(tail, hash);
      text := [t[0]] + text;
      assert text[1..] + "" == text[1..];
      Assoc([t[0]], Doubled(text[1..]), "'" + rest);
    } else if Begins(tail, '\'') {
      assert t == "''" + t[2..];
      text, rest := FindSingle(t[2..], hash);
      text := "'" + text;
      Assoc("''", Doubled(text[1..]), "'" + rest);
    } else {
      text, rest := "", tail;
    }
  }

  lemma Closings(hash: bool)
    ensures ClosedBy(Double, "\"", hash) && ClosedBy(Backtick, "`", hash) && ClosedBy(LineComment, "\n", hash)
  {
    forall u: string | u != ""
      ensures "\"" <= u <==> u[0] == '"'
      ensures "`" <= u <==> u[0] == '`'
      ensures "\n" <= u <==> u[0] == '\n'
    {
    }
  }

  lemma LongClosings(tag: string, hash: bool)
    ensures ClosedBy(Mode.BlockComment, "*/", hash) && ClosedBy(Dollar(Tag(tag)), Tag(tag), hash)
  {
    forall u: string | u != ""
      ensures "*/" <= u <==> u[0] == '*' && Next(u) == Some('/')
    {
    }
  }

  /** The text ends a statement, and opens the mode `m` with `open`. */
  ghost predicate Opens(t: string, open: string, m: Mode, hash: bool) {
    && open <= t && open != "" && LexerOf(hash)(t, Normal) == Move(|open|, m, false)
    && StatementEnd(t, Normal, LexerOf(hash)).Some?
  }

  lemma EndInside(t: string, open: string, m: Mode, hash: bool) returns (inside: string)
    requires Opens(t, open, m, hash)
    ensures t == open + inside && StatementEnd(inside, m, LexerOf(hash)).Some?
  {
    inside := t[|open|..];
  }

  lemma ClosedPiece(t: string, open: string, m: Mode, close: string, hash: bool) returns (text: string, rest: string)
    requires Opens(t, open, m, hash) && close != "" && ClosedBy(m, close, hash)
    ensures t == open + (text + close) + rest && EndsFirst(text, close)
  {
    hide LexerOf, StatementEnd, ClosedBy, EndsFirst;
    var inside := EndInside(t, open, m, hash);
    text, rest := FindClose(inside, m, close, hash);
    Assoc(text, close, rest);
    Assoc(open, text + close, rest);
  }

  lemma CharacterPiece(t: string, hash: bool) returns (p: Piece, rest: string)
    requires StatementEnd(t, Normal, LexerOf(hash)).Some?
    requires var m := LexerOf(hash)(t, Normal).mode; m == Double || m == Backtick || m == LineComment
    ensures t == Spelt(p) + rest && Fits(p, rest, hash)
  {
    var m := LexerOf(hash)(t, Normal).mode;
    var text;
    Closings(hash);
    match m
    case Double =>
      text, rest := ClosedPiece(t, "\"", m, "\"", hash);
      FirstCharacterCloses(text, '"');
      p := DoubleQuoted(text);
    case Backtick =>
      text, rest := ClosedPiece(t, "`", m, "`", hash);
      FirstCharacterCloses(text, '`');
      p := Backticked(text);
    case LineComment =>
      text, rest := ClosedPiece(t, if t[0] == '-' then "--" else "#", m, "\n", hash);
      FirstCharacterCloses(text, '\n');
      p := if t[0] == '-' then DashComment(text) else HashComment(text);
  }

  lemma SinglePiece(t: string, hash: bool) returns (p: Piece, rest: string)
    requires Opens(t, "'", Single, hash)
    ensures t == Spelt(p) + rest && Fits(p, rest, hash)
  {
    var inside := EndInside(t, "'", Single, hash);
    var text;
    text, rest := FindSingle(inside, hash);
    p := SingleQuoted(text);
    Assoc(Doubled(text), "'", rest);
    Assoc("'", Doubled(text) + "'", rest);
  }

  lemma DollarPiece(t: string, n: nat, hash: bool) returns (p: Piece, rest: string)
    requires t != "" && t[0] == '$' && TagBody(t[1..]) == Some(n) && StatementEnd(t, Normal, LexerOf(hash)).Some?
    ensures t == Spelt(p) + rest && Fits(p, rest, hash)
  {
    var tag := t[1..][..n];
    TagBodyReads(t[1..], n);
    assert t[..n + 2] == Tag(tag);
    LongClosings(tag, hash);
    var text;
    text, rest := ClosedPiece(t, Tag(tag), Dollar(Tag(tag)), Tag(tag), hash);
    p := DollarQuoted(tag, text);
  }

  lemma {:induction false} TagBodyReads(s: string, n: nat)
    requires TagBody(s) == Some(n)
    ensures n < |s| && s[n] == '$' && forall k :: 0 <= k < n ==> IsTagChar(s[k])
  {
    if s[0] != '$' {
      TagBodyReads(s[1..], n - 1);
      assert forall k :: 1 <= k < n ==> s[k] == s[1..][k - 1];
    }
  }

  lemma PlainPiece(t: string, hash: bool)
    requires t != "" && LexerOf(hash)(t, Normal) == Move(1, Normal, false)
    ensures t == Spelt(Plain(t[0])) + t[1..] && Fits(Plain(t[0]), t[1..], hash)
  {
    var rest := t[1..];
    if t[0] == '$' && OpensTag(rest) {
      var n :| 0 <= n < |rest| && rest[n] == '$' && forall k :: 0 <= k < n ==> IsTagChar(rest[k]);
      TagBodyIs(rest, n);
    }
  }

  /** The piece that a text begins with whose statement ends, unless a semicolon comes first. */
  lemma FirstPiece(t: string, hash: bool) returns (p: Piece, rest: string)
    requires StatementEnd(t, Normal, LexerOf(hash)).Some? && StatementEnd(t, Normal, LexerOf(hash)) != Some(0)
    ensures t == Spelt(p) + rest && Fits(p, rest, hash)
  {
    var m := LexerOf(hash)(t, Normal).mode;
    if m.Normal? {
      PlainPiece(t, hash);
      p, rest := Plain(t[0]), t[1..];
    } else if m.Single? {
      p, rest := SinglePiece(t, hash);
    } else if m.Dollar? {
      p, rest := DollarPiece(t, TagBody(t[1..]).value, hash);
    } else if m.BlockComment? {
      LongClosings("", hash);
      var text;
      text, rest := ClosedPiece(t, "/*", m, "*/", hash);
      p := Piece.BlockComment(text);
    } else {
      p, rest := CharacterPiece(t, hash);
    }
  }

  /** And there are no other statements: whatever the splitter cuts off at a semicolon is made of
      such pieces. */
  lemma {:induction false} EveryStatementIsPieces(t: string, hash: bool) returns (ps: seq<Piece>, later: string)
    requires StatementEnd(t, Normal, LexerOf(hash)).Some?
    ensures t == SpeltAll(ps) + (";" + later) && AllFit(ps, ";" + later, hash)
    ensures StatementEnd(t, Normal, LexerOf(hash)) == Some(|SpeltAll(ps)|)
    decreases |t|
  {
    hide LexerOf, StatementEnd, Fits, Spelt;
    var end := StatementEnd(t, Normal, LexerOf(hash));
    if end == Some(0) {
      SemicolonFirst(t, hash);
      ps, later := [], t[1..];
    } else {
      var p, rest := FirstPiece(t, hash);
      PieceIsSkipped(p, rest, hash);
      SpeltIsLonger(p);
      ps, later := EveryStatementIsPieces(rest, hash);
      Assoc(Spelt(p), SpeltAll(ps), ";" + later);
      ps := [p] + ps;
    }
  }

  lemma SpeltIsLonger(p: Piece)
    ensures Spelt(p) != ""
  {
  }

  lemma SemicolonFirst(t: string, hash: bool)
    requires StatementEnd(t, Normal, LexerOf(hash)) == Some(0)
    ensures t != "" && t == ";" + t[1..]
  {
  }
}
