/** Laws of the statement lexer: feeding input in pieces, and printing statements so that
    splitting the text again finds them. */
module StatementPrinting {
  import opened Wrappers
  import opened StatementSplitter

  // ----- feeding

  function Concat(chunks: seq<string>): string {
    if chunks == [] then "" else chunks[0] + Concat(chunks[1..])
  }

  /** The statements of each piece, split with the remainder of the earlier ones in front. */
  function Feed(carry: string, chunks: seq<string>, lex: Lexis): (seq<string>, string)
    decreases |chunks|
  {
    if chunks == [] then ([], carry)
    else
      var (statements, remainder) := Split(carry + chunks[0], lex);
      Prepend(statements, Feed(remainder, chunks[1..], lex))
  }

  lemma {:induction false} FeedingFindsTheWhole(carry: string, chunks: seq<string>, lex: Lexis)
    requires Lawful(lex) && chunks != []
    ensures Feed(carry, chunks, lex) == Split(carry + Concat(chunks), lex)
    decreases |chunks|
  {
    var (statements, remainder) := Split(carry + chunks[0], lex);
    if |chunks| == 1 {
      assert carry + Concat(chunks) == carry + chunks[0];
      assert statements + [] == statements;
    } else {
      FeedingFindsTheWhole(remainder, chunks[1..], lex);
      assert carry + Concat(chunks) == carry + chunks[0] + Concat(chunks[1..]);
      StreamingLaw(carry + chunks[0], Concat(chunks[1..]), lex);
    }
  }

  /** The streaming law, in both comment modes: however the input is cut into pieces, feeding
      them finds the statements and the remainder of the whole. */
  lemma StreamingSplit(a: string, b: string, chunks: seq<string>, hash: bool)
    ensures var lex := LexerOf(hash);
      var (statements, remainder) := Split(a, lex);
      Split(a + b, lex) == Prepend(statements, Split(remainder + b, lex))
    ensures chunks != [] ==> Feed("", chunks, LexerOf(hash)) == Split(Concat(chunks), LexerOf(hash))
  {
    LexerIsLawful(hash);
    StreamingLaw(a, b, LexerOf(hash));
    if chunks != [] {
      FeedingFindsTheWhole("", chunks, LexerOf(hash));
      assert "" + Concat(chunks) == Concat(chunks);
    }
  }

  // ----- trimmed text

  predicate AllSpace(s: string) {
    forall k :: 0 <= k < |s| ==> IsSpace(s[k])
  }

  predicate Trimmed(s: string) {
    s != "" ==> !IsSpace(s[0]) && !IsSpace(s[|s| - 1])
  }

  lemma {:induction false} TrimLeftCuts(s: string) returns (lead: string)
    ensures AllSpace(lead) && s == lead + TrimLeft(s)
    ensures TrimLeft(s) != "" ==> !IsSpace(TrimLeft(s)[0])
  {
    if s != "" && IsSpace(s[0]) {
      var rest := TrimLeftCuts(s[1..]);
      lead := [s[0]] + rest;
    } else {
      lead := "";
    }
  }

  lemma {:induction false} TrimRightCuts(s: string) returns (trail: string)
    ensures AllSpace(trail) && s == TrimRight(s) + trail
    ensures TrimRight(s) != "" ==> !IsSpace(TrimRight(s)[|TrimRight(s)| - 1])
  {
    if s != "" && IsSpace(s[|s| - 1]) {
      var rest := TrimRightCuts(s[..|s| - 1]);
      trail := rest + [s[|s| - 1]];
    } else {
      trail := "";
    }
  }

  lemma TrimCuts(s: string) returns (lead: string, trail: string)
    ensures AllSpace(lead) && AllSpace(trail) && s == lead + Trim(s) + trail && Trimmed(Trim(s))
  {
    lead := TrimLeftCuts(s);
    trail := TrimRightCuts(TrimLeft(s));
    assert Trim(s) != "" ==> Trim(s)[0] == TrimLeft(s)[0];
  }

  lemma {:induction false} TrimRightDrops(s: string, trail: string)
    requires AllSpace(trail) && (s != "" ==> !IsSpace(s[|s| - 1]))
    ensures TrimRight(s + trail) == s
  {
    if trail == "" {
      assert s + trail == s;
    } else {
      assert (s + trail)[..|s + trail| - 1] == s + trail[..|trail| - 1];
      TrimRightDrops(s, trail[..|trail| - 1]);
    }
  }

  lemma TrimDrops(s: string, trail: string)
    requires s != "" && Trimmed(s) && AllSpace(trail)
    ensures Trim(s + trail) == s
  {
    assert (s + trail)[0] == s[0];
    TrimRightDrops(s, trail);
  }

  lemma {:induction false} TrimLeftDrops(lead: string, s: string)
    requires AllSpace(lead) && (s != "" ==> !IsSpace(s[0]))
    ensures TrimLeft(lead + s) == s
  {
    if lead == "" {
      assert lead + s == s;
    } else {
      assert (lead + s)[1..] == lead[1..] + s;
      TrimLeftDrops(lead[1..], s);
    }
  }

  /** Trimming takes the white space at both ends and nothing else. */
  lemma TrimIsExact(lead: string, core: string, trail: string)
    requires AllSpace(lead) && AllSpace(trail) && Trimmed(core)
    ensures Trim(lead + core + trail) == core
  {
    if core == "" {
      assert lead + core + trail == (lead + trail) + "";
      TrimLeftDrops(lead + trail, "");
    } else {
      assert lead + core + trail == lead + (core + trail) && (core + trail)[0] == core[0];
      TrimLeftDrops(lead, core + trail);
      TrimRightDrops(core, trail);
    }
  }

  // ----- print and split again

  function Print(statements: seq<string>): string {
    if statements == [] then "" else statements[0] + "\n;" + Print(statements[1..])
  }

  lemma {:induction false} LeadIsSkipped(lead: string, t: string, lex: Lexis)
    requires Lawful(lex) && AllSpace(lead)
    ensures StatementEnd(lead + t, Normal, lex) == Shift(|lead|, StatementEnd(t, Normal, lex))
  {
    if lead == "" {
      assert lead + t == t;
    } else {
      assert FirstAt(lex, lead + t, Normal);
      assert (lead + t)[1..] == lead[1..] + t;
      LeadIsSkipped(lead[1..], t, lex);
    }
  }

  /** Only blanks and the ';' are left: the mode is normal or a line comment. */
  lemma {:induction false} BlankTail(trail: string, m: Mode, lex: Lexis)
    requires Lawful(lex) && ModeOk(m) && AllSpace(trail)
    requires StatementEnd(trail + ";", m, lex).Some?
    ensures m.Normal? || m.LineComment?
  {
    var t := trail + ";";
    assert FirstAt(lex, t, m);
    if trail != "" {
      assert t[1..] == trail[1..] + ";";
      BlankTail(trail[1..], OnBreaker(m, t[0]).mode, lex);
    }
  }

  lemma NewlineThenEnd(y: string, m: Mode, lex: Lexis)
    requires Lawful(lex) && (m.Normal? || m.LineComment?)
    ensures StatementEnd("\n;" + y, m, lex) == Some(1)
  {
    var t := "\n;" + y;
    assert t[1..] == ";" + y;
    assert FirstAt(lex, t, m) && FirstAt(lex, t[1..], Normal);
  }

  /** The lexer reads the same inside `s`, whether blanks or a newline follow. */
  lemma SameMove(s: string, trail: string, y: string, m: Mode, lex: Lexis)
    requires Lawful(lex) && ModeOk(m) && AllSpace(trail) && s != ""
    ensures lex(s + trail + ";", m) == lex(s + "\n;" + y, m)
    ensures var move := lex(s + trail + ";", m); 1 <= move.length <= |s| && ModeOk(move.mode)
  {
    var t, t', tail := s + trail + ";", s + "\n;" + y, trail + ";";
    assert FirstAt(lex, t, m);
    assert t == s + [tail[0]] + tail[1..] && t' == s + ['\n'] + (";" + y);
    assert Breaker(tail[0]);
    assert LocalAt(lex, s, tail[0], tail[1..], m) && LocalAt(lex, s, '\n', ";" + y, m);
  }

  /** Blanks between a statement and its ';' may be replaced by one newline. */
  lemma {:induction false} NewlineEndsAsWell(s: string, trail: string, y: string, m: Mode, lex: Lexis)
    requires Lawful(lex) && ModeOk(m) && AllSpace(trail)
    requires StatementEnd(s + trail + ";", m, lex) == Some(|s| + |trail|)
    ensures StatementEnd(s + "\n;" + y, m, lex) == Some(|s| + 1)
    decreases |s|
  {
    var t, t' := s + trail + ";", s + "\n;" + y;
    if s == "" {
      assert t == trail + ";" && t' == "\n;" + y;
      BlankTail(trail, m, lex);
      NewlineThenEnd(y, m, lex);
    } else {
      SameMove(s, trail, y, m, lex);
      var move := lex(t, m);
      assert t[move.length..] == s[move.length..] + trail + ";";
      assert t'[move.length..] == s[move.length..] + "\n;" + y;
      NewlineEndsAsWell(s[move.length..], trail, y, move.mode, lex);
    }
  }

  lemma PrintedEnd(t: string, p: nat, y: string, lex: Lexis)
    requires Lawful(lex) && StatementEnd(t, Normal, lex) == Some(p) && p < |t| && t[p] == ';'
    requires Trim(t[..p]) != ""
    ensures var s := Trim(t[..p]); StatementEnd(s + "\n;" + y, Normal, lex) == Some(|s| + 1)
  {
    hide Trim, Lawful, StatementEnd, AllSpace;
    var s := Trim(t[..p]);
    var lead, trail := TrimCuts(t[..p]);
    assert t == t[..p] + ";" + t[p + 1..];
    EndIsLocal(t[..p], t[p + 1..], "", Normal, lex);
    assert t[..p] + ";" + "" == lead + (s + trail + ";");
    LeadIsSkipped(lead, s + trail + ";", lex);
    NewlineEndsAsWell(s, trail, y, Normal, lex);
  }

  /** A statement found by splitting, printed in front of any text, is found again. */
  lemma PrintedStatementEnds(t: string, p: nat, y: string, lex: Lexis)
    requires Lawful(lex) && StatementEnd(t, Normal, lex) == Some(p) && p < |t| && t[p] == ';'
    requires Trim(t[..p]) != ""
    ensures var s := Trim(t[..p]);
      Split(s + "\n;" + y, lex) == Prepend([s], Split(y, lex))
  {
    hide Trim, Lawful, StatementEnd;
    var s := Trim(t[..p]);
    var _, _ := TrimCuts(t[..p]);
    PrintedEnd(t, p, y, lex);
    var printed := s + "\n;" + y;
    assert printed[..|s| + 1] == s + "\n" && printed[|s| + 2..] == y;
    TrimDrops(s, "\n");
    assert Split(printed, lex) == Record(s, Split(y, lex));
  }

  lemma {:induction false} PrintedSplitsBack(t: string, lex: Lexis)
    requires Lawful(lex)
    ensures Split(Print(Split(t, lex).0), lex) == (Split(t, lex).0, "")
    decreases |t|
  {
    var end := StatementEnd(t, Normal, lex);
    if end.None? {
      assert StatementEnd("", Normal, lex).None?;
    } else {
      var p := end.value;
      EndIsSemicolon(t, Normal, lex);
      PrintedSplitsBack(t[p + 1..], lex);
      var s, rest := Trim(t[..p]), Split(t[p + 1..], lex).0;
      if s != "" {
        PrintedStatementEnds(t, p, Print(rest), lex);
        assert ([s] + rest)[1..] == rest;
      }
    }
  }

  /** Print and split again: every input, both comment modes. */
  lemma PrintThenSplit(input: string, hash: bool)
    ensures var statements := Split(input, LexerOf(hash)).0;
      Split(Print(statements), LexerOf(hash)) == (statements, "")
  {
    LexerIsLawful(hash);
    PrintedSplitsBack(input, LexerOf(hash));
  }

  lemma CommentLineIsStatement(hash: bool)
    ensures Split("--\n;", LexerOf(hash)).0 == ["--"]
  {
    var lex := LexerOf(hash);
    var t := "--\n;";
    assert t[2..] == "\n;" && t[2..][1..] == ";";
    assert StatementEnd(";", Normal, lex) == Some(0);
    assert StatementEnd("\n;", LineComment, lex) == Some(1);
    assert StatementEnd(t, Normal, lex) == Some(3);
    assert t[..3] == "--" + "\n";
    TrimDrops("--", "\n");
    assert t[4..] == "";
    assert StatementEnd("", Normal, lex).None?;
  }

  lemma CommentHasNoEnd(hash: bool)
    ensures StatementEnd("--;", Normal, LexerOf(hash)).None?
  {
    var lex, u := LexerOf(hash), "--;";
    assert lex(u, Normal) == Move(2, LineComment, false);
    assert lex(";", LineComment) == Move(1, LineComment, false);
    assert u[2..] == ";" && ";"[1..] == "";
    assert StatementEnd("", LineComment, lex).None?;
    assert StatementEnd(";", LineComment, lex).None?;
  }

  /** Without the newline the round trip fails: trimming took the end of the line comment. */
  lemma BareSemicolonIsNotEnough(hash: bool)
    ensures var lex := LexerOf(hash);
      && Split("--\n;", lex).0 == ["--"]
      && Split("--" + ";", lex) == ([], "--;")
  {
    hide StatementEnd;
    CommentLineIsStatement(hash);
    CommentHasNoEnd(hash);
    assert "--" + ";" == "--;";
  }
}
