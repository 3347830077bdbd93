/** What the named rewriter of the Go driver reads, spelt out piece by piece: quoted text, casts,
    parameters and every other character. */
module ParameterPieces {
  import opened Wrappers
  import opened Decimal
  import opened ParameterRewriting

  datatype Piece =
    | Other(c: char)
    | Quoted(text: string)   // a doubled quote is the end of one and the start of the next
    | Cast
    | Param(sigil: char, name: string)

  function Spelt(p: Piece): string {
    match p
    case Other(c) => [c]
    case Quoted(text) => "'" + (text + "'")
    case Cast => "::"
    case Param(sigil, name) => [sigil] + name
  }

  function SpeltAll(ps: seq<Piece>): string {
    if ps == [] then "" else Spelt(ps[0]) + SpeltAll(ps[1..])
  }

  predicate BeginsName(s: string) {
    s != "" && IsWordChar(s[0]) && !('0' <= s[0] <= '9')
  }

  /** The piece ends where it says, and another character begins nothing. */
  predicate Fits(p: Piece, rest: string) {
    match p
    case Other(c) =>
      c != '\'' && (c == ':' ==> rest == "" || rest[0] != ':') && (c in {':', '@'} ==> !BeginsName(rest))
    case Quoted(text) => '\'' !in text
    case Cast => true
    case Param(sigil, name) =>
      && sigil in {':', '@'} && BeginsName(name) && (forall k :: 0 <= k < |name| ==> IsWordChar(name[k]))
      && (rest != "" ==> !IsWordChar(rest[0]))
  }

  predicate AllFit(ps: seq<Piece>, rest: string) {
    ps != [] ==> Fits(ps[0], SpeltAll(ps[1..]) + rest) && AllFit(ps[1..], rest)
  }

  /** Nothing is left, or a quote that is never closed. */
  predicate Ends(rest: string) {
    rest == "" || (rest[0] == '\'' && '\'' !in rest[1..])
  }

  // ----- what rewriting is to make of the pieces

  function ParamTexts(ps: seq<Piece>): seq<string> {
    if ps == [] then [] else (if ps[0].Param? then [Spelt(ps[0])] else []) + ParamTexts(ps[1..])
  }

  function FirstUnknown<A>(ps: seq<Piece>, lookup: map<string, NamedArg<A>>): Option<string> {
    if ps == [] then None
    else if ps[0].Param? && ps[0].name !in lookup then Some(ps[0].name)
    else FirstUnknown(ps[1..], lookup)
  }

  function Numbered(ps: seq<Piece>, used: nat): string {
    if ps == [] then ""
    else if ps[0].Param? then "$" + Dec(used + 1) + Numbered(ps[1..], used + 1)
    else Spelt(ps[0]) + Numbered(ps[1..], used)
  }

  function Rewritten<A>(ps: seq<Piece>, rest: string, used: nat, lookup: map<string, NamedArg<A>>)
    : Result<string, RewriteError>
  {
    match FirstUnknown(ps, lookup)
    case Some(name) => Err(Missing(name))
    case None => Ok(Numbered(ps, used) + rest)
  }

  // ----- one piece

  /** The text `front` is passed over, from inside quotes or outside. */
  ghost predicate Passed<A>(front: string, quoted: bool, rest: string, used: nat, lookup: map<string, NamedArg<A>>) {
    && Named(front + rest, quoted, used, lookup) == Emit(front, Named(rest, false, used, lookup))
    && Params(front + rest, quoted) == Params(rest, false)
    && (HasParams(front + rest, quoted) <==> HasParams(rest, false))
  }

  lemma OtherIsPassed<A>(c: char, rest: string, used: nat, lookup: map<string, NamedArg<A>>)
    requires Fits(Other(c), rest)
    ensures Passed([c], false, rest, used, lookup)
  {
    var q := [c] + rest;
    assert q[1..] == rest;
    assert !StartsCast(q) && !StartsParam(q);
  }

  lemma CastIsPassed<A>(rest: string, used: nat, lookup: map<string, NamedArg<A>>)
    ensures Passed("::", false, rest, used, lookup)
  {
    var q := "::" + rest;
    assert q[2..] == rest && StartsCast(q);
  }

  lemma {:induction false} QuotedIsPassed<A>(text: string, rest: string, used: nat, lookup: map<string, NamedArg<A>>)
    requires '\'' !in text
    ensures Passed(text + "'", true, rest, used, lookup)
  {
    if text == "" {
      assert text + "'" + rest == "'" + rest && ("'" + rest)[1..] == rest;
    } else {
      var tail := text[1..] + "'" + rest;
      var q := text + "'" + rest;
      assert q == [text[0]] + tail && q[1..] == tail;
      QuotedIsPassed(text[1..], rest, used, lookup);
      EmitTwice([text[0]], text[1..] + "'", Named(rest, false, used, lookup));
      assert [text[0]] + (text[1..] + "'") == text + "'";
    }
  }

  lemma LiteralIsPassed<A>(text: string, rest: string, used: nat, lookup: map<string, NamedArg<A>>)
    requires '\'' !in text
    ensures Passed(Spelt(Quoted(text)), false, rest, used, lookup)
  {
    var q := Spelt(Quoted(text)) + rest;
    Assoc("'", text + "'", rest);
    assert q[1..] == text + "'" + rest;
    QuotedIsPassed(text, rest, used, lookup);
    EmitTwice("'", text + "'", Named(rest, false, used, lookup));
  }

  lemma {:induction false} LengthOfName(name: string, rest: string)
    requires forall k :: 0 <= k < |name| ==> IsWordChar(name[k])
    requires rest != "" ==> !IsWordChar(rest[0])
    ensures IdentLength(name + rest) == |name|
  {
    if name == "" {
      assert name + rest == rest;
    } else {
      assert (name + rest)[1..] == name[1..] + rest;
      LengthOfName(name[1..], rest);
    }
  }

  lemma ParamIsRead<A>(sigil: char, name: string, rest: string, used: nat, lookup: map<string, NamedArg<A>>)
    requires Fits(Param(sigil, name), rest)
    ensures var q := [sigil] + name + rest;
      && HasParams(q, false) && Params(q, false) == [[sigil] + name] + Params(rest, false)
      && Named(q, false, used, lookup) ==
           if name in lookup then Emit("$" + Dec(used + 1), Named(rest, false, used + 1, lookup))
           else Err(Missing(name))
  {
    var q := [sigil] + name + rest;
    assert q[1..] == name + rest && q[1] == name[0] && StartsParam(q) && !StartsCast(q);
    LengthOfName(name, rest);
    assert (name + rest)[..|name|] == name && (name + rest)[|name|..] == rest;
    assert ParamName(q) == name && BehindParam(q) == rest;
  }

  // ----- whole texts

  lemma PieceIsPassed<A>(p: Piece, rest: string, used: nat, lookup: map<string, NamedArg<A>>)
    requires Fits(p, rest) && !p.Param?
    ensures Passed(Spelt(p), false, rest, used, lookup)
  {
    match p
    case Other(c) => OtherIsPassed(c, rest, used, lookup);
    case Quoted(text) => LiteralIsPassed(text, rest, used, lookup);
    case Cast => CastIsPassed(rest, used, lookup);
  }

  lemma {:induction false} EndIsPassed<A>(rest: string, quoted: bool, used: nat, lookup: map<string, NamedArg<A>>)
    requires if quoted then '\'' !in rest else Ends(rest)
    ensures Named(rest, quoted, used, lookup) == Ok(rest) && Params(rest, quoted) == [] && !HasParams(rest, quoted)
    decreases |rest|
  {
    if rest != "" {
      EndIsPassed(rest[1..], true, used, lookup);
      assert [rest[0]] + rest[1..] == rest;
    }
  }

  /** What one more piece in front makes of the result. */
  lemma RewrittenStep<A>(ps: seq<Piece>, rest: string, used: nat, lookup: map<string, NamedArg<A>>)
    requires ps != []
    ensures Rewritten(ps, rest, used, lookup) ==
      if !ps[0].Param? then Emit(Spelt(ps[0]), Rewritten(ps[1..], rest, used, lookup))
      else if ps[0].name in lookup then Emit("$" + Dec(used + 1), Rewritten(ps[1..], rest, used + 1, lookup))
      else Err(Missing(ps[0].name))
  {
    hide Spelt, Dec;
    if ps[0].Param? {
      Assoc("$" + Dec(used + 1), Numbered(ps[1..], used + 1), rest);
    } else {
      Assoc(Spelt(ps[0]), Numbered(ps[1..], used), rest);
    }
  }

  /** Main result: rewriting replaces the parameters among the pieces by their numbers, leaves quoted
      text, casts and everything else as it is, and reports the first parameter without an argument;
      the text has named parameters exactly if one of its pieces is one. */
  lemma {:induction false} NamedRewritesItsPieces<A>(ps: seq<Piece>, rest: string, used: nat,
                                                     lookup: map<string, NamedArg<A>>)
    requires AllFit(ps, rest) && Ends(rest)
    ensures var q := SpeltAll(ps) + rest;
      && Named(q, false, used, lookup) == Rewritten(ps, rest, used, lookup)
      && Params(q, false) == ParamTexts(ps)
      && (HasParams(q, false) <==> ParamTexts(ps) != [])
    decreases |ps|
  {
    hide Spelt, Named, Params, HasParams, Rewritten, Fits, Emit;
    if ps == [] {
      NothingRewritten(rest, used, lookup);
    } else {
      var behind := SpeltAll(ps[1..]) + rest;
      Assoc(Spelt(ps[0]), SpeltAll(ps[1..]), rest);
      RewrittenStep(ps, rest, used, lookup);
      NamedRewritesItsPieces(ps[1..], rest, used, lookup);
      if ps[0].Param? {
        NamedRewritesItsPieces(ps[1..], rest, used + 1, lookup);
        ParamSpelt(ps[0]);
        ParamIsRead(ps[0].sigil, ps[0].name, behind, used, lookup);
      } else {
        PieceIsPassed(ps[0], behind, used, lookup);
      }
    }
  }

  lemma ParamSpelt(p: Piece)
    requires p.Param?
    ensures Spelt(p) == [p.sigil] + p.name
  {
  }

  lemma NothingRewritten<A>(rest: string, used: nat, lookup: map<string, NamedArg<A>>)
    requires Ends(rest)
    ensures var q := SpeltAll([]) + rest;
      && Named(q, false, used, lookup) == Rewritten([], rest, used, lookup)
      && Params(q, false) == [] && !HasParams(q, false)
  {
    EndIsPassed(rest, false, used, lookup);
    assert "" + rest == rest;
  }

  // ----- every text is such pieces

  /** The piece in front of a text that does not end here. */
  lemma FirstPiece(q: string) returns (p: Piece, rest: string)
    requires !Ends(q)
    ensures q == Spelt(p) + rest && Fits(p, rest) && |rest| < |q|
  {
    if q[0] == '\'' {
      var n := QuoteAt(q[1..]);
      p, rest := Quoted(q[1..][..n]), q[n + 2..];
      assert q == Spelt(p) + rest;
    } else if |q| > 1 && q[0] == ':' && q[1] == ':' {
      p, rest := Cast, q[2..];
    } else if q[0] in {':', '@'} && BeginsName(q[1..]) {
      var n := NameLength(q[1..]);
      p, rest := Param(q[0], q[1..][..n]), q[1..][n..];
      assert q == [q[0]] + q[1..];
    } else {
      p, rest := Other(q[0]), q[1..];
    }
  }

  lemma {:induction false} QuoteAt(s: string) returns (n: nat)
    requires '\'' in s
    ensures n < |s| && s[n] == '\'' && '\'' !in s[..n]
  {
    if s[0] == '\'' {
      n := 0;
    } else {
      n := QuoteAt(s[1..]);
      n := n + 1;
      assert s[..n] == [s[0]] + s[1..][..n - 1];
    }
  }

  lemma {:induction false} NameLength(s: string) returns (n: nat)
    ensures n <= |s| && (forall k :: 0 <= k < n ==> IsWordChar(s[k])) && (n < |s| ==> !IsWordChar(s[n]))
  {
    n := 0;
    if s != "" && IsWordChar(s[0]) {
      n := NameLength(s[1..]);
      n := n + 1;
    }
  }

  /** Every text is pieces that fit, with an unclosed quote behind them or nothing. */
  lemma {:induction false} EveryTextIsPieces(q: string) returns (ps: seq<Piece>, rest: string)
    ensures q == SpeltAll(ps) + rest && AllFit(ps, rest) && Ends(rest)
    decreases |q|
  {
    if Ends(q) {
      ps, rest := [], q;
    } else {
      var p, behind := FirstPiece(q);
      ps, rest := EveryTextIsPieces(behind);
      assert ([p] + ps)[1..] == ps;
      Assoc(Spelt(p), SpeltAll(ps), rest);
      ps := [p] + ps;
    }
  }
}
