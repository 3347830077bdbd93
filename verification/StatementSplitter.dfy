/** The statement lexer of the command-line tools: `trim` and `splitStatements`. */
module StatementSplitter {
  import opened Wrappers

  // ----- characters

  /** std::isspace in the "C" locale. */
  predicate IsSpace(c: char) {
    c == ' ' || '\t' <= c <= '\r'
  }

  /** std::isalnum in the "C" locale, or underscore. */
  predicate IsTagChar(c: char) {
    '0' <= c <= '9' || 'a' <= c <= 'z' || 'A' <= c <= 'Z' || c == '_'
  }

  // ----- trim

  function TrimLeft(s: string): string {
    if s != "" && IsSpace(s[0]) then TrimLeft(s[1..]) else s
  }

  function TrimRight(s: string): string {
    if s != "" && IsSpace(s[|s| - 1]) then TrimRight(s[..|s| - 1]) else s
  }

  function Trim(s: string): string {
    TrimRight(TrimLeft(s))
  }

  method TrimCopy(input: string) returns (r: string)
    ensures r == Trim(input)
  {
    var start := 0;
    assert input[0..] == input;
    while start < |input| && IsSpace(input[start])
      invariant 0 <= start <= |input|
      invariant TrimLeft(input[start..]) == TrimLeft(input)
    {
      start := start + 1;
    }
    ghost var left := input[start..];
    var end := |input|;
    assert input[start..end] == left;
    while end > start && IsSpace(input[end - 1])
      invariant start <= end <= |input|
      invariant TrimRight(input[start..end]) == TrimRight(left)
    {
      assert input[start..end][..end - start - 1] == input[start..end - 1];
      end := end - 1;
    }
    r := input[start..end];
  }

  // ----- the lexer, one decision at a time

  datatype Mode = Normal | Single | Double | Backtick | LineComment | BlockComment | Dollar(tag: string)

  /** How far one decision advances, the mode after it, and whether it ends a statement. */
  datatype Move = Move(length: nat, mode: Mode, ends: bool)

  /** Length of the tag body before the closing '$', if only tag characters precede one. */
  function TagBody(s: string): (r: Option<nat>)
    ensures r.Some? ==> r.value < |s|
  {
    if s == "" then None
    else if s[0] == '$' then Some(0)
    else if !IsTagChar(s[0]) then None
    else match TagBody(s[1..])
         case None => None
         case Some(n) => Some(n + 1)
  }

  function Next(t: string): Option<char> {
    if |t| > 1 then Some(t[1]) else None
  }

  function NormalStep(t: string, hash: bool): (r: Move)
    requires t != ""
    ensures 1 <= r.length <= |t|
    ensures r.ends ==> r == Move(1, Normal, true) && t[0] == ';'
  {
    var c, next := t[0], Next(t);
    if c == '-' && next == Some('-') then Move(2, LineComment, false)
    else if hash && c == '#' then Move(1, LineComment, false)
    else if c == '/' && next == Some('*') then Move(2, BlockComment, false)
    else if c == '$' then
      match TagBody(t[1..])
      case None => Move(1, Normal, false)
      case Some(n) => Move(n + 2, Dollar(t[..n + 2]), false)
    else if c == '\'' then Move(1, Single, false)
    else if c == '"' then Move(1, Double, false)
    else if c == '`' then Move(1, Backtick, false)
    else Move(1, Normal, c == ';')
  }

  function Step(t: string, m: Mode, hash: bool): (r: Move)
    requires t != ""
    ensures 1 <= r.length <= |t|
    ensures r.ends ==> r == Move(1, Normal, true) && t[0] == ';'
  {
    var c, next := t[0], Next(t);
    match m
    case Normal => NormalStep(t, hash)
    case Single =>
      if c != '\'' then Move(1, m, false)
      else if next == Some('\'') then Move(2, m, false)
      else Move(1, Normal, false)
    case Double => Move(1, if c == '"' then Normal else m, false)
    case Backtick => Move(1, if c == '`' then Normal else m, false)
    case LineComment => Move(1, if c == '\n' then Normal else m, false)
    case BlockComment => if c == '*' && next == Some('/') then Move(2, Normal, false) else Move(1, m, false)
    case Dollar(tag) =>
      if c == '$' && tag <= t && tag != "" then Move(|tag|, Normal, false) else Move(1, m, false)
  }

  // ----- statements, for any lexer

  /** The laws below need only a few facts about single decisions, so the lexer is a parameter. */
  type Lexis = (string, Mode) -> Move

  function LexerOf(hash: bool): Lexis {
    (t: string, m: Mode) => if t == "" then Move(0, m, false) else Step(t, m, hash)
  }

  function Shift(n: nat, end: Option<nat>): Option<nat> {
    if end.None? then None else Some(n + end.value)
  }

  /** Position of the ';' that ends the first statement. */
  function StatementEnd(t: string, m: Mode, lex: Lexis): Option<nat>
    decreases |t|
  {
    var move := lex(t, m);
    if t == "" || move.length == 0 || move.length > |t| then None
    else if move.ends then Some(0)
    else Shift(move.length, StatementEnd(t[move.length..], move.mode, lex))
  }

  /** Record a statement unless it is empty. */
  function Record(statement: string, rest: (seq<string>, string)): (seq<string>, string) {
    (if statement == "" then rest.0 else [statement] + rest.0, rest.1)
  }

  /** The statements, trimmed and without the empty ones, and the unfinished remainder. */
  function Split(s: string, lex: Lexis): (seq<string>, string)
    decreases |s|
  {
    match StatementEnd(s, Normal, lex)
    case None => ([], s)
    case Some(p) => if p < |s| then Record(Trim(s[..p]), Split(s[p + 1..], lex)) else ([], s)
  }

  // ----- the loop of the source

  /** The search for a closing '$' followed by the check of the characters before it. */
  method FindTag(input: string, i: nat) returns (end: Option<nat>)
    requires i < |input| && input[i] == '$'
    ensures end.Some? ==> i < end.value < |input|
    ensures TagBody(input[i + 1..]) == if end.Some? then Some(end.value - i - 1) else None
  {
    var close := i + 1;
    while close < |input| && input[close] != '$'
      invariant i < close <= |input|
      invariant forall k :: i < k < close ==> input[k] != '$'
    {
      close := close + 1;
    }
    ghost var behind := input[i + 1..];
    assert forall k :: 0 <= k < close - i - 1 ==> behind[k] == input[i + 1 + k];
    TagBodyIs(behind, close - i - 1);
    if close == |input| {
      return None;
    }
    for j := i + 1 to close
      invariant forall k :: i < k < j ==> IsTagChar(input[k])
    {
      if !IsTagChar(input[j]) {
        assert !IsTagChar(behind[j - i - 1]);
        return None;
      }
    }
    return Some(close);
  }

  lemma {:induction false} TagBodyIs(s: string, n: nat)
    requires n <= |s| && forall k :: 0 <= k < n ==> s[k] != '$'
    requires n < |s| ==> s[n] == '$'
    ensures TagBody(s) == if n < |s| && (forall k :: 0 <= k < n ==> IsTagChar(s[k])) then Some(n) else None
  {
    if n != 0 {
      TagBodyIs(s[1..], n - 1);
      assert forall k :: 1 <= k < n ==> s[k] == s[1..][k - 1];
      if n < |s| && IsTagChar(s[0]) && forall k :: 0 <= k < n - 1 ==> IsTagChar(s[1..][k]) {
        assert forall k :: 0 <= k < n ==> IsTagChar(s[k]);
      }
    }
  }

  /** `input.compare(i, tag.size(), tag) == 0`. */
  predicate StartsWithAt(input: string, i: nat, tag: string)
    requires i <= |input|
  {
    |tag| <= |input| - i && input[i..i + |tag|] == tag
  }

  /** The five flags, the tag and the position, as the loop body of the source updates them. */
  datatype Lexer = Lexer(i: nat, single: bool, double: bool, backtick: bool, line: bool, block: bool, tag: string) {
    predicate Plain() { !single && !double && !backtick && tag == "" }

    ghost predicate Encodes(m: Mode) {
      && single == m.Single? && double == m.Double? && backtick == m.Backtick?
      && line == m.LineComment? && block == m.BlockComment?
      && (m.Dollar? ==> tag == m.tag != "") && (!m.Dollar? ==> tag == "")
    }
  }

  /** One pass of the loop body, up to the recording of a statement. */
  method ReadOne(input: string, x: Lexer, hash: bool, ghost m: Mode) returns (y: Lexer, ends: bool)
    requires x.i < |input| && x.Encodes(m)
    ensures var move := Step(input[x.i..], m, hash);
      y.i == x.i + move.length && y.Encodes(move.mode) && ends == move.ends
  {
    ghost var t := input[x.i..];
    var c := input[x.i];
    var next := if x.i + 1 < |input| then input[x.i + 1] else '\0';
    y, ends := x.(i := x.i + 1), false;
    if x.line {
      return y.(line := c != '\n'), false;
    }
    if x.block {
      if c == '*' && next == '/' {
        y := y.(i := x.i + 2, block := false);
      }
      return;
    }
    if x.Plain() {
      if c == '-' && next == '-' {
        return y.(i := x.i + 2, line := true), false;
      }
      if hash && c == '#' {
        return y.(line := true), false;
      }
      if c == '/' && next == '*' {
        return y.(i := x.i + 2, block := true), false;
      }
    }
    if !x.single && !x.double && !x.backtick {
      if x.tag != "" {
        if c == '$' && StartsWithAt(input, x.i, x.tag) {
          assert t[..|x.tag|] == x.tag;
          return y.(i := x.i + |x.tag|, tag := ""), false;
        }
        assert !(c == '$' && x.tag <= t);
      } else if c == '$' {
        var end := FindTag(input, x.i);
        assert t[1..] == input[x.i + 1..];
        if end.Some? {
          var tag := input[x.i..end.value + 1];
          assert tag == t[..end.value - x.i + 1];
          return y.(i := end.value + 1, tag := tag), false;
        }
      }
    }
    if x.tag == "" {
      if !x.double && !x.backtick && c == '\'' {
        return if x.single && next == '\'' then y.(i := x.i + 2) else y.(single := !x.single), false;
      }
      if !x.single && !x.backtick && c == '"' {
        return y.(double := !x.double), false;
      }
      if !x.single && !x.double && c == '`' {
        return y.(backtick := !x.backtick), false;
      }
    }
    ends := x.Plain() && c == ';';
  }

  ghost predicate IsAt(lex: Lexis, hash: bool, t: string, m: Mode) {
    t != "" ==> lex(t, m) == Step(t, m, hash)
  }

  ghost predicate Is(lex: Lexis, hash: bool) {
    forall t, m :: IsAt(lex, hash, t, m)
  }

  /** Where the scan of one statement stands: `t` is the input from the start of the
      statement, `done` of its characters are read, and the mode is `m`. */
  ghost predicate Scanning(t: string, done: nat, m: Mode, lex: Lexis) {
    && done <= |t|
    && StatementEnd(t, Normal, lex) == Shift(done, StatementEnd(t[done..], m, lex))
  }

  lemma ScanMove(t: string, done: nat, m: Mode, lex: Lexis, move: Move)
    requires Scanning(t, done, m, lex) && done < |t|
    requires move == lex(t[done..], m) && 1 <= move.length <= |t| - done
    ensures !move.ends ==> Scanning(t, done + move.length, move.mode, lex)
    ensures move.ends ==> StatementEnd(t, Normal, lex) == Some(done)
  {
    DropDrop(t, done, move.length);
    EndUnfolds(t[done..], t[done + move.length..], m, lex, move);
  }

  lemma DropDrop(t: string, a: nat, b: nat)
    requires a + b <= |t|
    ensures t[a..][b..] == t[a + b..]
  {
  }

  lemma EndUnfolds(t: string, rest: string, m: Mode, lex: Lexis, move: Move)
    requires t != "" && move == lex(t, m) && 1 <= move.length <= |t| && rest == t[move.length..]
    ensures StatementEnd(t, m, lex)
         == if move.ends then Some(0) else Shift(move.length, StatementEnd(rest, move.mode, lex))
  {
  }

  function Prepend(statements: seq<string>, rest: (seq<string>, string)): (seq<string>, string) {
    (statements + rest.0, rest.1)
  }

  /** What is still to be recorded behind `statements`, when `t` is left to scan. */
  ghost predicate Recording(statements: seq<string>, t: string, whole: (seq<string>, string), lex: Lexis) {
    whole == Prepend(statements, Split(t, lex))
  }

  /** One pass of the loop, told in terms of the lexer. */
  method ReadNext(input: string, x: Lexer, hash: bool, ghost m: Mode, ghost lex: Lexis)
    returns (y: Lexer, ends: bool, ghost move: Move)
    requires x.i < |input| && x.Encodes(m) && Is(lex, hash)
    ensures move == lex(input[x.i..], m) && 1 <= move.length <= |input| - x.i
    ensures y.i == x.i + move.length && y.Encodes(move.mode) && ends == move.ends
    ensures ends ==> move == Move(1, Normal, true)
  {
    y, ends := ReadOne(input, x, hash, m);
    move := Step(input[x.i..], m, hash);
    assert IsAt(lex, hash, input[x.i..], m);
  }

  /** What the main loop keeps: `t` is the input from the start of the current statement. */
  ghost predicate Inside(input: string, start: nat, i: nat, t: string, m: Mode, statements: seq<string>,
                         whole: (seq<string>, string), lex: Lexis) {
    && start <= i <= |input| && t == input[start..]
    && Scanning(t, i - start, m, lex)
    && Recording(statements, t, whole, lex)
  }

  lemma MoveInside(input: string, start: nat, i: nat, t: string, m: Mode, statements: seq<string>,
                   whole: (seq<string>, string), lex: Lexis, move: Move)
    requires Inside(input, start, i, t, m, statements, whole, lex) && i < |input|
    requires move == lex(input[i..], m) && 1 <= move.length <= |input| - i
    ensures !move.ends ==> Inside(input, start, i + move.length, t, move.mode, statements, whole, lex)
    ensures move.ends ==> StatementEnd(t, Normal, lex) == Some(i - start)
  {
    assert t[i - start..] == input[i..];
    ScanMove(t, i - start, m, lex, move);
  }

  lemma EndInside(input: string, start: nat, i: nat, t: string, m: Mode, statements: seq<string>,
                  whole: (seq<string>, string), lex: Lexis)
    requires Inside(input, start, i, t, m, statements, whole, lex) && i < |input|
    requires StatementEnd(t, Normal, lex) == Some(i - start)
    ensures var statement := Trim(input[start..i]);
      Inside(input, i + 1, i + 1, input[i + 1..], Normal,
             if statement != "" then statements + [statement] else statements, whole, lex)
  {
    assert t[..i - start] == input[start..i];
    assert t[i - start + 1..] == input[i + 1..];
    RecordingEnd(statements, t, i - start, whole, lex);
  }

  method SplitLoop(input: string, hash: bool, ghost lex: Lexis, ghost whole: (seq<string>, string))
    returns (statements: seq<string>, remainder: string)
    requires Is(lex, hash)
    requires Inside(input, 0, 0, input, Normal, [], whole, lex)
    ensures (statements, remainder) == whole
  {
    hide StatementEnd, Trim, Split;
    statements := [];
    var start := 0;
    var x := Lexer(0, false, false, false, false, false, "");
    ghost var m, t := Normal, input;
    while x.i < |input|
      invariant x.Encodes(m)
      invariant Inside(input, start, x.i, t, m, statements, whole, lex)
      decreases |input| - x.i
    {
      var i := x.i;
      var ends;
      ghost var move;
      x, ends, move := ReadNext(input, x, hash, m, lex);
      MoveInside(input, start, i, t, m, statements, whole, lex, move);
      if ends {
        var statement := TrimCopy(input[start..i]);
        EndInside(input, start, i, t, m, statements, whole, lex);
        if statement != "" {
          statements := statements + [statement];
        }
        start := i + 1;
        t := input[i + 1..];
      }
      m := move.mode;
    }
    RecordingDone(statements, t, m, whole, lex);
    remainder := input[start..];
  }

  lemma ScanStart(t: string, lex: Lexis)
    ensures Scanning(t, 0, Normal, lex)
  {
    assert t[0..] == t;
  }

  lemma RecordingEnd(statements: seq<string>, t: string, p: nat, whole: (seq<string>, string), lex: Lexis)
    requires Recording(statements, t, whole, lex) && StatementEnd(t, Normal, lex) == Some(p) && p < |t|
    ensures var statement := Trim(t[..p]);
      Recording(if statement != "" then statements + [statement] else statements, t[p + 1..], whole, lex)
    ensures Scanning(t[p + 1..], 0, Normal, lex)
  {
    PrependRecord(statements, Trim(t[..p]), Split(t[p + 1..], lex));
    ScanStart(t[p + 1..], lex);
  }

  lemma PrependRecord(statements: seq<string>, statement: string, rest: (seq<string>, string))
    ensures Prepend(statements, Record(statement, rest))
         == Prepend(if statement != "" then statements + [statement] else statements, rest)
  {
    assert statements + ([statement] + rest.0) == statements + [statement] + rest.0;
  }

  lemma RecordingDone(statements: seq<string>, t: string, m: Mode, whole: (seq<string>, string), lex: Lexis)
    requires Recording(statements, t, whole, lex) && Scanning(t, |t|, m, lex)
    ensures whole == (statements, t)
  {
    assert statements + [] == statements;
  }

  method SplitStatements(input: string, hash: bool) returns (statements: seq<string>, remainder: string)
    ensures (statements, remainder) == Split(input, LexerOf(hash))
  {
    ghost var lex := LexerOf(hash);
    assert Is(lex, hash);
    ghost var whole := Split(input, lex);
    assert [] + whole.0 == whole.0;
    ScanStart(input, lex);
    statements, remainder := SplitLoop(input, hash, lex, whole);
  }

  // ----- what the laws use of the lexer

  /** A character that no tag contains and that no two-character token has second. */
  predicate Breaker(c: char) {
    IsSpace(c) || c == ';'
  }

  predicate ModeOk(m: Mode) {
    m.Dollar? ==> m.tag != "" && forall k :: 0 <= k < |m.tag| ==> !Breaker(m.tag[k])
  }

  function OnBreaker(m: Mode, c: char): Move {
    match m
    case Normal => Move(1, Normal, c == ';')
    case LineComment => Move(1, if c == '\n' then Normal else LineComment, false)
    case _ => Move(1, m, false)
  }

  ghost predicate FirstAt(lex: Lexis, t: string, m: Mode) {
    t != "" && ModeOk(m) ==>
      var move := lex(t, m);
      && 1 <= move.length <= |t| && ModeOk(move.mode)
      && (move.ends ==> t[0] == ';' && m.Normal?)
      && (Breaker(t[0]) ==> move == OnBreaker(m, t[0]))
  }

  /** Inside `s`, nothing behind the breaker that follows `s` has any influence. */
  ghost predicate LocalAt(lex: Lexis, s: string, x: char, r: string, m: Mode) {
    s != "" && Breaker(x) && ModeOk(m) ==>
      lex(s + [x] + r, m) == lex(s + ";", m) && lex(s + ";", m).length <= |s|
  }

  ghost predicate Lawful(lex: Lexis) {
    && (forall t, m :: FirstAt(lex, t, m))
    && (forall s, x, r, m :: LocalAt(lex, s, x, r, m))
  }

  lemma {:induction false} TagBodyLocal(s: string, x: char, r: string)
    requires Breaker(x)
    ensures TagBody(s + [x] + r) == TagBody(s)
  {
    if s != "" {
      assert (s + [x] + r)[1..] == s[1..] + [x] + r;
      TagBodyLocal(s[1..], x, r);
    }
  }

  lemma {:induction false} TagBodyHasNoBreaker(s: string)
    ensures var n := TagBody(s); n.Some? ==>
      s[n.value] == '$' && forall k :: 0 <= k < n.value ==> !Breaker(s[k])
  {
    if s != "" && s[0] != '$' {
      TagBodyHasNoBreaker(s[1..]);
      assert forall k :: 1 <= k < |s| ==> s[k] == s[1..][k - 1];
    }
  }

  lemma TagPrefixLocal(tag: string, s: string, x: char, r: string)
    requires Breaker(x) && forall k :: 0 <= k < |tag| ==> !Breaker(tag[k])
    ensures tag <= s + [x] + r <==> tag <= s
  {
    var t := s + [x] + r;
    assert t[|s|] == x;
    if tag <= t {
      assert forall k :: 0 <= k < |tag| ==> tag[k] == t[k];
    }
  }

  lemma StepFirst(t: string, m: Mode, hash: bool)
    requires t != "" && ModeOk(m)
    ensures FirstAt(LexerOf(hash), t, m)
  {
    TagBodyHasNoBreaker(t[1..]);
    if m.Normal? && Step(t, m, hash).mode.Dollar? {
      var tag := Step(t, m, hash).mode.tag;
      assert forall k :: 1 <= k < |tag| ==> tag[k] == t[1..][k - 1];
    }
  }

  lemma StepLocal(s: string, x: char, r: string, m: Mode, hash: bool)
    requires s != "" && Breaker(x) && ModeOk(m)
    ensures Step(s + [x] + r, m, hash) == Step(s + ";", m, hash) && Step(s + ";", m, hash).length <= |s|
  {
    var t, t' := s + [x] + r, s + ";";
    assert t' == s + [';'] + "";
    assert t[1..] == s[1..] + [x] + r && t'[1..] == s[1..] + [';'] + "";
    TagBodyLocal(s[1..], x, r);
    TagBodyLocal(s[1..], ';', "");
    if m.Dollar? {
      TagPrefixLocal(m.tag, s, x, r);
      TagPrefixLocal(m.tag, s, ';', "");
    } else {
      assert forall k :: 0 <= k <= |s| ==> t[..k] == s[..k] == t'[..k];
      assert Next(t) == Next(t') || (Next(t) == Some(x) && Next(t') == Some(';'));
    }
  }

  lemma LexerIsLawful(hash: bool)
    ensures Lawful(LexerOf(hash))
  {
    var lex := LexerOf(hash);
    forall t: string, m: Mode
      ensures FirstAt(lex, t, m)
    {
      if t != "" && ModeOk(m) {
        StepFirst(t, m, hash);
      }
    }
    forall s: string, x: char, r: string, m: Mode
      ensures LocalAt(lex, s, x, r, m)
    {
      if s != "" && Breaker(x) && ModeOk(m) {
        StepLocal(s, x, r, m, hash);
      }
    }
  }

  // ----- streaming

  /** What follows the ';' that ends a statement has no influence on where it ends. */
  lemma {:induction false} EndIsLocal(s: string, r: string, r': string, m: Mode, lex: Lexis)
    requires Lawful(lex) && ModeOk(m)
    requires StatementEnd(s + ";" + r, m, lex) == Some(|s|)
    ensures StatementEnd(s + ";" + r', m, lex) == Some(|s|)
    decreases |s|
  {
    var t, t' := s + ";" + r, s + ";" + r';
    assert FirstAt(lex, t, m) && FirstAt(lex, t', m);
    if s != "" {
      assert t == s + [';'] + r && t' == s + [';'] + r';
      assert LocalAt(lex, s, ';', r, m) && LocalAt(lex, s, ';', r', m);
      var move := lex(t, m);
      assert t[move.length..] == s[move.length..] + ";" + r;
      assert t'[move.length..] == s[move.length..] + ";" + r';
      EndIsLocal(s[move.length..], r, r', move.mode, lex);
    }
  }

  lemma {:induction false} EndIsSemicolon(t: string, m: Mode, lex: Lexis)
    requires Lawful(lex) && ModeOk(m) && StatementEnd(t, m, lex).Some?
    ensures var p := StatementEnd(t, m, lex).value; p < |t| && t[p] == ';'
    decreases |t|
  {
    assert FirstAt(lex, t, m);
    var move := lex(t, m);
    if !move.ends {
      EndIsSemicolon(t[move.length..], move.mode, lex);
    }
  }

  /** Splitting a concatenation is splitting the first part, then its remainder followed by
      the second part. */
  lemma {:induction false} StreamingLaw(a: string, b: string, lex: Lexis)
    requires Lawful(lex)
    ensures Split(a + b, lex) == Prepend(Split(a, lex).0, Split(Split(a, lex).1 + b, lex))
    decreases |a|
  {
    hide Lawful, Trim;
    var end := StatementEnd(a, Normal, lex);
    if end.None? {
      assert [] + Split(a + b, lex).0 == Split(a + b, lex).0;
    } else {
      var p := end.value;
      EndIsSemicolon(a, Normal, lex);
      assert a == a[..p] + ";" + a[p + 1..];
      assert a + b == a[..p] + ";" + (a[p + 1..] + b);
      EndIsLocal(a[..p], a[p + 1..], a[p + 1..] + b, Normal, lex);
      assert (a + b)[..p] == a[..p] && (a + b)[p + 1..] == a[p + 1..] + b;
      StreamingLaw(a[p + 1..], b, lex);
      var later := Split(a[p + 1..], lex);
      var rest := Split(later.1 + b, lex).0;
      assert [Trim(a[..p])] + (later.0 + rest) == [Trim(a[..p])] + later.0 + rest;
    }
  }
}
