/** Parameter rewriting of the Go driver: `?` and `:name` / `@name` become `$1`, `$2`, ... */
module ParameterRewriting {
  import opened Wrappers
  import opened Decimal

  datatype RewriteError = NotEnough | TooMany | Missing(name: string)

  // ----- text cut at its parameters

  /** ps[0] + ts[0] + ps[1] + ... + ts[n-1] + ps[n] */
  function Interleave(ps: seq<string>, ts: seq<string>): string
    requires |ps| == |ts| + 1
  {
    if ts == [] then ps[0] else ps[0] + ts[0] + Interleave(ps[1..], ts[1..])
  }

  /** `$(k+1)`, ..., `$(k+n)` */
  function Dollars(k: nat, n: nat): (r: seq<string>)
    ensures |r| == n
    decreases n
  {
    if n == 0 then [] else ["$" + Dec(k + 1)] + Dollars(k + 1, n - 1)
  }

  /** Whether the text behind `s` is quoted, when `s` begins quoted or not. */
  function QuotedAfter(s: string, quoted: bool): bool {
    if s == "" then quoted else QuotedAfter(s[1..], if s[0] == '\'' then !quoted else quoted)
  }

  function Prefixed(c: string, ps: seq<string>): seq<string>
    requires ps != []
  {
    [c + ps[0]] + ps[1..]
  }

  lemma InterleavePrefixed(c: string, ps: seq<string>, ts: seq<string>)
    requires |ps| == |ts| + 1
    ensures Interleave(Prefixed(c, ps), ts) == c + Interleave(ps, ts)
  {
    assert Prefixed(c, ps)[1..] == ps[1..];
  }

  lemma InterleaveNext(t: string, ps: seq<string>, ts: seq<string>)
    requires |ps| == |ts| + 1
    ensures Interleave([""] + ps, [t] + ts) == t + Interleave(ps, ts)
  {
    var ps1, ts1 := [""] + ps, [t] + ts;
    assert ps1[1..] == ps && ts1[1..] == ts;
    assert Interleave(ps1, ts1) == "" + t + Interleave(ps, ts);
    assert "" + t == t;
  }

  // ----- positional parameters

  /** The text between the unquoted question marks. */
  function MarkPieces(q: string, quoted: bool): (r: seq<string>)
    ensures r != []
  {
    if q == "" then [""]
    else if q[0] == '\'' then Prefixed("'", MarkPieces(q[1..], !quoted))
    else if q[0] == '?' && !quoted then [""] + MarkPieces(q[1..], quoted)
    else Prefixed([q[0]], MarkPieces(q[1..], quoted))
  }

  function Marks(n: nat): seq<string> {
    seq(n, _ => "?")
  }

  /** The loop of rewritePositionalParams: `used` of `count` arguments are taken. */
  function Positional(q: string, quoted: bool, used: nat, count: nat): Result<string, RewriteError>
    requires used <= count
    decreases |q|
  {
    if q == "" then if used < count then Err(TooMany) else Ok("")
    else if q[0] == '\'' then Emit("'", Positional(q[1..], !quoted, used, count))
    else if !quoted && q[0] == '?' then
      if used >= count then Err(NotEnough)
      else Emit("$" + Dec(used + 1), Positional(q[1..], quoted, used + 1, count))
    else Emit([q[0]], Positional(q[1..], quoted, used, count))
  }

  function Emit(s: string, r: Result<string, RewriteError>): Result<string, RewriteError> {
    if r.Err? then r else Ok(s + r.value)
  }

  lemma EmitTwice(s: string, t: string, r: Result<string, RewriteError>)
    ensures Emit(s, Emit(t, r)) == Emit(s + t, r)
  {
    if r.Ok? {
      assert s + (t + r.value) == s + t + r.value;
    }
  }

  method RewritePositionalParams<A>(query: string, args: seq<A>) returns (r: Result<(string, seq<A>), RewriteError>)
    requires |args| < 0x8000_0000_0000_0000
    ensures var sql := Positional(query, false, 0, |args|);
      r == if sql.Err? then Err(sql.error) else Ok((sql.value, args))
  {
    var sb, quoted, index, i := "", false, 0, 0;
    var ordered: seq<A> := [];
    assert query[0..] == query;
    EmitNothing(Positional(query, false, 0, |args|));
    while i < |query|
      invariant 0 <= i <= |query| && 0 <= index <= |args| && ordered == args[..index]
      invariant Emit(sb, Positional(query[i..], quoted, index, |args|)) == Positional(query, false, 0, |args|)
    {
      var ch := query[i];
      assert query[i..][1..] == query[i + 1..];
      if ch == '\'' {
        EmitTwice(sb, "'", Positional(query[i + 1..], !quoted, index, |args|));
        quoted := !quoted;
        sb := sb + "'";
      } else if !quoted && ch == '?' {
        if index >= |args| {
          return Err(NotEnough);
        }
        EmitTwice(sb, "$" + Dec(index + 1), Positional(query[i + 1..], quoted, index + 1, |args|));
        ordered := ordered + [args[index]];
        index := index + 1;
        var number := IntToString(|ordered|);
        sb := sb + ("$" + number);
      } else {
        EmitTwice(sb, [ch], Positional(query[i + 1..], quoted, index, |args|));
        sb := sb + [ch];
      }
      i := i + 1;
    }
    assert query[i..] == "" && sb + "" == sb && args[..|args|] == args;
    if index < |args| {
      return Err(TooMany);
    }
    return Ok((sb, ordered));
  }

  lemma EmitNothing(r: Result<string, RewriteError>)
    ensures Emit("", r) == r
  {
    if r.Ok? {
      assert "" + r.value == r.value;
    }
  }

  /** `r` is the text with its marks replaced if the count fits, and the right error if not. */
  predicate Replaces(r: Result<string, RewriteError>, ps: seq<string>, used: nat, count: nat)
    requires ps != [] && used <= count
  {
    var n := |ps| - 1;
    r == if n == count - used then Ok(Interleave(ps, Dollars(used, n)))
         else if n > count - used then Err(NotEnough)
         else Err(TooMany)
  }

  lemma ReplacesPrefixed(c: string, r: Result<string, RewriteError>, ps: seq<string>, used: nat, count: nat)
    requires ps != [] && used <= count && Replaces(r, ps, used, count)
    ensures Replaces(Emit(c, r), Prefixed(c, ps), used, count)
  {
    InterleavePrefixed(c, ps, Dollars(used, |ps| - 1));
  }

  lemma ReplacesNext(r: Result<string, RewriteError>, ps: seq<string>, used: nat, count: nat)
    requires ps != [] && used < count && Replaces(r, ps, used + 1, count)
    ensures Replaces(Emit("$" + Dec(used + 1), r), [""] + ps, used, count)
  {
    InterleaveNext("$" + Dec(used + 1), ps, Dollars(used + 1, |ps| - 1));
  }

  /** Positional rewriting succeeds exactly when there are as many unquoted question marks as
      arguments, and then it changes nothing but these marks, the k-th into `$k`. */
  lemma {:induction false} PositionalReplacesMarks(q: string, quoted: bool, used: nat, count: nat)
    requires used <= count
    ensures Replaces(Positional(q, quoted, used, count), MarkPieces(q, quoted), used, count)
    decreases |q|
  {
    if q != "" {
      if q[0] == '\'' {
        PositionalReplacesMarks(q[1..], !quoted, used, count);
        ReplacesPrefixed("'", Positional(q[1..], !quoted, used, count), MarkPieces(q[1..], !quoted), used, count);
      } else if q[0] == '?' && !quoted {
        if used < count {
          PositionalReplacesMarks(q[1..], quoted, used + 1, count);
          ReplacesNext(Positional(q[1..], quoted, used + 1, count), MarkPieces(q[1..], quoted), used, count);
        }
      } else {
        PositionalReplacesMarks(q[1..], quoted, used, count);
        ReplacesPrefixed([q[0]], Positional(q[1..], quoted, used, count), MarkPieces(q[1..], quoted), used, count);
      }
    }
  }

  predicate CutsTheText(ps: seq<string>, q: string, quoted: bool) {
    ps != [] && Interleave(ps, Marks(|ps| - 1)) == q && Cut(ps, quoted, '?')
  }

  /** The pieces are the text cut at its unquoted marks: joined they give it back, no piece has
      an unquoted mark, and every mark stands outside quotes. */
  lemma {:induction false} MarkPiecesAreTheText(q: string, quoted: bool)
    ensures CutsTheText(MarkPieces(q, quoted), q, quoted)
  {
    if q != "" {
      assert q == [q[0]] + q[1..];
      if q[0] == '\'' {
        MarkPiecesAreTheText(q[1..], !quoted);
        CutPrefixed('\'', MarkPieces(q[1..], !quoted), q[1..], !quoted, quoted);
      } else if q[0] == '?' && !quoted {
        MarkPiecesAreTheText(q[1..], quoted);
        CutMark(MarkPieces(q[1..], quoted), q[1..]);
      } else {
        MarkPiecesAreTheText(q[1..], quoted);
        CutPrefixed(q[0], MarkPieces(q[1..], quoted), q[1..], quoted, quoted);
      }
    }
  }

  lemma CutMark(ps: seq<string>, q: string)
    requires CutsTheText(ps, q, false)
    ensures CutsTheText([""] + ps, "?" + q, false)
  {
    assert Marks(|ps|) == ["?"] + Marks(|ps| - 1);
    InterleaveNext("?", ps, Marks(|ps| - 1));
    assert ([""] + ps)[1..] == ps;
  }

  lemma CutPrefixed(c: char, ps: seq<string>, q: string, inner: bool, outer: bool)
    requires CutsTheText(ps, q, inner) && inner == (if c == '\'' then !outer else outer)
    requires c == '?' ==> outer
    ensures CutsTheText(Prefixed([c], ps), [c] + q, outer)
  {
    InterleavePrefixed([c], ps, Marks(|ps| - 1));
    assert Prefixed([c], ps)[1..] == ps[1..];
    assert ([c] + ps[0])[1..] == ps[0];
  }

  /** No unquoted `x` in `s`. */
  predicate Free(s: string, quoted: bool, x: char) {
    s != "" ==> (s[0] == x ==> quoted) && Free(s[1..], if s[0] == '\'' then !quoted else quoted, x)
  }

  /** The pieces contain no unquoted `x`, and all but the last end outside quotes. */
  predicate Cut(ps: seq<string>, quoted: bool, x: char)
    requires ps != []
  {
    && Free(ps[0], quoted, x)
    && (|ps| > 1 ==> !QuotedAfter(ps[0], quoted) && Cut(ps[1..], false, x))
  }

  // ----- named parameters

  predicate IsIdentStart(c: char) {
    'a' <= c <= 'z' || 'A' <= c <= 'Z' || c == '_'
  }

  predicate IsIdentPart(c: char) {
    IsIdentStart(c) || '0' <= c <= '9'
  }

  function IdentLength(s: string): (n: nat)
    ensures n <= |s|
    ensures s != "" && IsIdentPart(s[0]) ==> n > 0
    ensures n < |s| ==> !IsIdentPart(s[n])
  {
    if s != "" && IsIdentPart(s[0]) then 1 + IdentLength(s[1..]) else 0
  }

  predicate StartsParam(q: string) {
    |q| > 1 && (q[0] == '@' || q[0] == ':') && IsIdentStart(q[1])
  }

  predicate StartsCast(q: string) {
    |q| > 1 && q[0] == ':' && q[1] == ':'
  }

  /** A named parameter occurs outside quotes and behind no cast. */
  predicate HasParams(q: string, quoted: bool)
    decreases |q|
  {
    q != "" &&
    if q[0] == '\'' then HasParams(q[1..], !quoted)
    else if !quoted && StartsCast(q) then HasParams(q[2..], quoted)
    else (!quoted && StartsParam(q)) || HasParams(q[1..], quoted)
  }

  method HasNamedParams(query: string) returns (r: bool)
    ensures r == HasParams(query, false)
  {
    var quoted, i := false, 0;
    assert query[0..] == query;
    while i + 1 < |query|
      invariant 0 <= i <= |query|
      invariant HasParams(query, false) == HasParams(query[i..], quoted)
    {
      var ch := query[i];
      assert query[i..][1..] == query[i + 1..] && query[i..][2..] == query[i + 2..];
      if ch == '\'' {
        quoted := !quoted;
      } else if !quoted {
        if ch == ':' && query[i + 1] == ':' {
          i := i + 1;
        } else if (ch == '@' || ch == ':') && IsIdentStart(query[i + 1]) {
          return true;
        }
      }
      i := i + 1;
    }
    if i < |query| {
      assert query[i..][1..] == "";
    }
    return false;
  }

  function ParamName(q: string): string
    requires StartsParam(q)
  {
    q[1..][..IdentLength(q[1..])]
  }

  function BehindParam(q: string): string
    requires StartsParam(q)
  {
    q[1..][IdentLength(q[1..])..]
  }

  /** The text between the named parameters. */
  function ParamPieces(q: string, quoted: bool): (r: seq<string>)
    ensures r != []
    decreases |q|
  {
    if q == "" then [""]
    else if q[0] == '\'' then Prefixed("'", ParamPieces(q[1..], !quoted))
    else if !quoted && StartsCast(q) then Prefixed("::", ParamPieces(q[2..], quoted))
    else if !quoted && StartsParam(q) then [""] + ParamPieces(BehindParam(q), quoted)
    else Prefixed([q[0]], ParamPieces(q[1..], quoted))
  }

  /** The named parameters, sigil included. */
  function Params(q: string, quoted: bool): (r: seq<string>)
    ensures |r| == |ParamPieces(q, quoted)| - 1
    ensures forall k :: 0 <= k < |r| ==> |r[k]| > 1
    decreases |q|
  {
    if q == "" then []
    else if q[0] == '\'' then Params(q[1..], !quoted)
    else if !quoted && StartsCast(q) then Params(q[2..], quoted)
    else if !quoted && StartsParam(q) then [[q[0]] + ParamName(q)] + Params(BehindParam(q), quoted)
    else Params(q[1..], quoted)
  }

  datatype NamedArg<A> = NamedArg(name: string, value: A)

  function TrimSigils(name: string): string {
    if name != "" && (name[0] == '@' || name[0] == ':') then TrimSigils(name[1..]) else name
  }

  /** Later arguments of the same name win; unnamed ones are ignored. */
  function Lookup<A>(args: seq<NamedArg<A>>): map<string, NamedArg<A>> {
    if args == [] then map[]
    else
      var last := args[|args| - 1];
      var before := Lookup(args[..|args| - 1]);
      if last.name == "" then before else before[TrimSigils(last.name) := last]
  }

  /** The loop of rewriteNamedParams, with `used` parameters already bound. */
  function Named<A>(q: string, quoted: bool, used: nat, lookup: map<string, NamedArg<A>>): Result<string, RewriteError>
    decreases |q|
  {
    if q == "" then Ok("")
    else if q[0] == '\'' then Emit("'", Named(q[1..], !quoted, used, lookup))
    else if !quoted && StartsCast(q) then Emit("::", Named(q[2..], quoted, used, lookup))
    else if !quoted && StartsParam(q) then
      if ParamName(q) !in lookup then Err(Missing(ParamName(q)))
      else Emit("$" + Dec(used + 1), Named(BehindParam(q), quoted, used + 1, lookup))
    else Emit([q[0]], Named(q[1..], quoted, used, lookup))
  }

  lemma {:induction false} SigilsAreTrimmed(name: string, i: nat)
    requires i <= |name| && forall k :: 0 <= k < i ==> name[k] == '@' || name[k] == ':'
    requires i < |name| ==> name[i] != '@' && name[i] != ':'
    ensures TrimSigils(name) == name[i..]
  {
    if i > 0 {
      SigilsAreTrimmed(name[1..], i - 1);
    }
  }

  /** The argument has the name `n`, sigils aside. */
  predicate Names<A>(arg: NamedArg<A>, n: string) {
    arg.name != "" && TrimSigils(arg.name) == n
  }

  /** The k-th argument is the last one of the name `n`. */
  predicate LastOfName<A>(args: seq<NamedArg<A>>, n: string, k: nat) {
    k < |args| && Names(args[k], n) && forall j :: k < j < |args| ==> !Names(args[j], n)
  }

  /** A name stands for the last argument of that name. */
  lemma {:induction false} LookupIsLast<A>(args: seq<NamedArg<A>>, n: string)
    ensures forall k: nat :: LastOfName(args, n, k) ==> n in Lookup(args) && Lookup(args)[n] == args[k]
    ensures n in Lookup(args) <==> exists k: nat :: LastOfName(args, n, k)
  {
    if args != [] {
      var last := |args| - 1;
      var front := args[..last];
      LookupIsLast(front, n);
      if Names(args[last], n) {
        assert LastOfName(args, n, last);
      } else {
        assert forall j :: 0 <= j < last ==> args[j] == front[j];
        forall k: nat
          ensures LastOfName(args, n, k) <==> LastOfName(front, n, k)
        {
          assert k < last && LastOfName(front, n, k) ==> forall j :: k < j < last ==> !Names(args[j], n);
        }
      }
    }
  }

  /** A name begins with a letter or an underscore and goes on as far as there are letters, digits
      and underscores. */
  lemma NameIsLongest(q: string)
    requires StartsParam(q)
    ensures var name, behind := ParamName(q), BehindParam(q);
      && q == [q[0]] + name + behind && name != "" && !('0' <= name[0] <= '9')
      && (forall k :: 0 <= k < |name| ==> IsWordChar(name[k])) && (behind != "" ==> !IsWordChar(behind[0]))
  {
    IdentIsWord(q[1..]);
    assert q == [q[0]] + q[1..];
  }

  predicate IsWordChar(c: char) {
    c == '_' || '0' <= c <= '9' || 'A' <= c <= 'Z' || 'a' <= c <= 'z'
  }

  lemma {:induction false} IdentIsWord(s: string)
    ensures forall k :: 0 <= k < IdentLength(s) ==> IsWordChar(s[k])
  {
    if s != "" && IsIdentPart(s[0]) {
      IdentIsWord(s[1..]);
      assert forall k :: 1 <= k < IdentLength(s) ==> s[k] == s[1..][k - 1];
    }
  }

  /** The arguments bound, in the order of the parameters. */
  function Bound<A>(params: seq<string>, lookup: map<string, NamedArg<A>>): seq<NamedArg<A>>
    requires forall k :: 0 <= k < |params| ==> params[k] != "" && params[k][1..] in lookup
  {
    seq(|params|, k requires 0 <= k < |params| => lookup[params[k][1..]])
  }

  /** All parameters are known; otherwise the first unknown one is reported. */
  predicate AllKnown<A>(params: seq<string>, lookup: map<string, NamedArg<A>>) {
    forall k :: 0 <= k < |params| ==> params[k] != "" && params[k][1..] in lookup
  }

  /** The k-th argument bound is the last one that has the name of the k-th parameter. */
  lemma BoundByName<A>(params: seq<string>, args: seq<NamedArg<A>>, k: nat, j: nat)
    requires AllKnown(params, Lookup(args)) && k < |params| && LastOfName(args, params[k][1..], j)
    ensures Bound(params, Lookup(args))[k] == args[j]
  {
    LookupIsLast(args, params[k][1..]);
  }

  method BuildLookup<A>(args: seq<NamedArg<A>>) returns (lookup: map<string, NamedArg<A>>)
    ensures lookup == Lookup(args)
  {
    lookup := map[];
    for k := 0 to |args|
      invariant lookup == Lookup(args[..k])
    {
      assert args[..k + 1][..k] == args[..k];
      if args[k].name != "" {
        lookup := lookup[TrimSigils(args[k].name) := args[k]];
      }
    }
    assert args[..|args|] == args;
  }

  method NameEnd(query: string, i: nat) returns (j: nat)
    requires i + 1 <= |query|
    ensures j == i + 1 + IdentLength(query[i + 1..])
  {
    j := i + 1;
    while j < |query| && IsIdentPart(query[j])
      invariant i < j <= |query|
      invariant IdentLength(query[i + 1..]) == j - i - 1 + IdentLength(query[j..])
    {
      assert query[j..][1..] == query[j + 1..];
      j := j + 1;
    }
  }

  /** What is bound from `q` on, behind the arguments already bound. */
  ghost predicate Binding<A>(ordered: seq<NamedArg<A>>, q: string, quoted: bool, whole: seq<string>,
        lookup: map<string, NamedArg<A>>) {
    && |ordered| + |Params(q, quoted)| == |whole|
    && whole[|ordered|..] == Params(q, quoted)
    && forall k :: 0 <= k < |ordered| ==> |whole[k]| > 1 && whole[k][1..] in lookup && ordered[k] == lookup[whole[k][1..]]
  }

  method RewriteNamedParams<A>(query: string, args: seq<NamedArg<A>>)
    returns (r: Result<(string, seq<NamedArg<A>>), RewriteError>)
    requires |query| < 0x8000_0000_0000_0000
    ensures var lookup := Lookup(args); var sql := Named(query, false, 0, lookup); var params := Params(query, false);
      && (sql.Err? ==> r == Err(sql.error))
      && (sql.Ok? ==> AllKnown(params, lookup) && r == Ok((sql.value, Bound(params, lookup))))
  {
    var lookup := BuildLookup(args);
    ghost var goal, whole := Named(query, false, 0, lookup), Params(query, false);
    var sb, quoted, i := "", false, 0;
    var ordered: seq<NamedArg<A>> := [];
    assert query[0..] == query;
    EmitNothing(goal);
    assert Rewriting(goal, sb, query, quoted, ordered, whole, lookup);
    hide Named, Params, Rewriting, ParamName, BehindParam, Dec, Emit, IdentLength, Lookup;
    while i < |query|
      invariant 0 <= i <= |query| && |ordered| <= i
      invariant Rewriting(goal, sb, query[i..], quoted, ordered, whole, lookup)
    {
      var ch := query[i];
      ghost var rest := query[i..];
      assert rest[1..] == query[i + 1..];
      if ch == '\'' {
        PassQuote(goal, sb, rest, quoted, ordered, whole, lookup);
        quoted := !quoted;
        sb := sb + "'";
        i := i + 1;
      } else if !quoted && ch == ':' && i + 1 < |query| && query[i + 1] == ':' {
        assert rest[2..] == query[i + 2..];
        PassCast(goal, sb, rest, ordered, whole, lookup);
        sb := sb + "::";
        i := i + 2;
      } else if !quoted && (ch == '@' || ch == ':') && i + 1 < |query| && IsIdentStart(query[i + 1]) {
        var j := NameEnd(query, i);
        var name := query[i + 1..j];
        ParamAt(query, i, j);
        PassParam(goal, sb, rest, ordered, whole, lookup);
        if name !in lookup {
          return Err(Missing(name));
        }
        ordered := ordered + [lookup[name]];
        var number := IntToString(|ordered|);
        sb := sb + ("$" + number);
        i := j;
      } else {
        PassOther(goal, sb, rest, quoted, ordered, whole, lookup);
        sb := sb + [ch];
        i := i + 1;
      }
    }
    assert query[i..] == "";
    RewritingDone(goal, sb, quoted, ordered, whole, lookup);
    return Ok((sb, ordered));
  }

  /** What the loop keeps: `sb` is written and `ordered` bound, `q` is still to be read. */
  ghost predicate Rewriting<A>(goal: Result<string, RewriteError>, sb: string, q: string, quoted: bool,
                               ordered: seq<NamedArg<A>>, whole: seq<string>, lookup: map<string, NamedArg<A>>) {
    && goal == Emit(sb, Named(q, quoted, |ordered|, lookup))
    && Binding(ordered, q, quoted, whole, lookup)
  }

  lemma PassQuote<A>(goal: Result<string, RewriteError>, sb: string, q: string, quoted: bool,
                     ordered: seq<NamedArg<A>>, whole: seq<string>, lookup: map<string, NamedArg<A>>)
    requires Rewriting(goal, sb, q, quoted, ordered, whole, lookup) && q != "" && q[0] == '\''
    ensures Rewriting(goal, sb + "'", q[1..], !quoted, ordered, whole, lookup)
  {
    EmitTwice(sb, "'", Named(q[1..], !quoted, |ordered|, lookup));
  }

  lemma PassCast<A>(goal: Result<string, RewriteError>, sb: string, q: string,
                    ordered: seq<NamedArg<A>>, whole: seq<string>, lookup: map<string, NamedArg<A>>)
    requires Rewriting(goal, sb, q, false, ordered, whole, lookup) && StartsCast(q)
    ensures Rewriting(goal, sb + "::", q[2..], false, ordered, whole, lookup)
  {
    EmitTwice(sb, "::", Named(q[2..], false, |ordered|, lookup));
  }

  lemma EmitParam<A>(goal: Result<string, RewriteError>, sb: string, q: string, used: nat,
                     lookup: map<string, NamedArg<A>>)
    requires goal == Emit(sb, Named(q, false, used, lookup)) && StartsParam(q) && !StartsCast(q)
    ensures var name := ParamName(q);
      if name in lookup then goal == Emit(sb + ("$" + Dec(used + 1)), Named(BehindParam(q), false, used + 1, lookup))
      else goal == Err(Missing(name))
  {
    if ParamName(q) in lookup {
      EmitTwice(sb, "$" + Dec(used + 1), Named(BehindParam(q), false, used + 1, lookup));
    }
  }

  lemma PassParam<A>(goal: Result<string, RewriteError>, sb: string, q: string,
                     ordered: seq<NamedArg<A>>, whole: seq<string>, lookup: map<string, NamedArg<A>>)
    requires Rewriting(goal, sb, q, false, ordered, whole, lookup) && StartsParam(q) && !StartsCast(q)
    ensures var name := ParamName(q); var number := "$" + Dec(|ordered| + 1);
      if name in lookup then Rewriting(goal, sb + number, BehindParam(q), false, ordered + [lookup[name]], whole, lookup)
      else goal == Err(Missing(name))
  {
    hide Named, Emit, Dec, Binding;
    EmitParam(goal, sb, q, |ordered|, lookup);
    if ParamName(q) in lookup {
      BindNext(ordered, q, whole, lookup);
    }
  }

  lemma PassOther<A>(goal: Result<string, RewriteError>, sb: string, q: string, quoted: bool,
                     ordered: seq<NamedArg<A>>, whole: seq<string>, lookup: map<string, NamedArg<A>>)
    requires Rewriting(goal, sb, q, quoted, ordered, whole, lookup)
    requires q != "" && q[0] != '\'' && (quoted || (!StartsCast(q) && !StartsParam(q)))
    ensures Rewriting(goal, sb + [q[0]], q[1..], quoted, ordered, whole, lookup)
  {
    EmitTwice(sb, [q[0]], Named(q[1..], quoted, |ordered|, lookup));
  }

  lemma ParamAt(query: string, i: nat, j: nat)
    requires i + 1 < |query| && StartsParam(query[i..]) && j == i + 1 + IdentLength(query[i + 1..]) <= |query|
    ensures query[i + 1..j] == ParamName(query[i..]) && query[j..] == BehindParam(query[i..])
  {
    assert query[i..][1..] == query[i + 1..];
  }

  lemma RewritingDone<A>(goal: Result<string, RewriteError>, sb: string, quoted: bool,
                         ordered: seq<NamedArg<A>>, whole: seq<string>, lookup: map<string, NamedArg<A>>)
    requires Rewriting(goal, sb, "", quoted, ordered, whole, lookup)
    ensures goal == Ok(sb) && AllKnown(whole, lookup) && ordered == Bound(whole, lookup)
  {
    assert sb + "" == sb;
    AllBound(ordered, quoted, whole, lookup);
  }

  lemma AllBound<A>(ordered: seq<NamedArg<A>>, quoted: bool, whole: seq<string>, lookup: map<string, NamedArg<A>>)
    requires Binding(ordered, "", quoted, whole, lookup)
    ensures AllKnown(whole, lookup) && ordered == Bound(whole, lookup)
  {
  }

  lemma BindNext<A>(ordered: seq<NamedArg<A>>, q: string, whole: seq<string>, lookup: map<string, NamedArg<A>>)
    requires StartsParam(q) && !StartsCast(q) && Binding(ordered, q, false, whole, lookup) && ParamName(q) in lookup
    ensures Binding(ordered + [lookup[ParamName(q)]], BehindParam(q), false, whole, lookup)
  {
    var n := |ordered|;
    assert Params(q, false) == [[q[0]] + ParamName(q)] + Params(BehindParam(q), false);
    assert whole[n] == whole[n..][0] == [q[0]] + ParamName(q);
    assert whole[n][1..] == ParamName(q);
    assert whole[n + 1..] == whole[n..][1..] == Params(BehindParam(q), false);
  }

  // ----- what named rewriting does to the text

  predicate Renames<A>(r: Result<string, RewriteError>, ps: seq<string>, ts: seq<string>, used: nat,
        lookup: map<string, NamedArg<A>>)
    requires |ps| == |ts| + 1 && forall k :: 0 <= k < |ts| ==> |ts[k]| > 1
  {
    && (AllKnown(ts, lookup) ==> r == Ok(Interleave(ps, Dollars(used, |ts|))))
    && (!AllKnown(ts, lookup) ==>
          exists k :: 0 <= k < |ts| && AllKnown(ts[..k], lookup) && ts[k][1..] !in lookup && r
              == Err(Missing(ts[k][1..])))
  }

  lemma RenamesPrefixed<A>(c: string, r: Result<string, RewriteError>, ps: seq<string>, ts: seq<string>, used: nat,
                           lookup: map<string, NamedArg<A>>)
    requires |ps| == |ts| + 1 && (forall k :: 0 <= k < |ts| ==> |ts[k]| > 1) && Renames(r, ps, ts, used, lookup)
    ensures Renames(Emit(c, r), Prefixed(c, ps), ts, used, lookup)
  {
    InterleavePrefixed(c, ps, Dollars(used, |ts|));
  }

  lemma KnownNext<A>(t: string, ts: seq<string>, lookup: map<string, NamedArg<A>>)
    requires t != "" && t[1..] in lookup
    ensures AllKnown([t] + ts, lookup) <==> AllKnown(ts, lookup)
  {
    var ts1 := [t] + ts;
    assert forall k :: 1 <= k < |ts1| ==> ts1[k] == ts[k - 1];
    assert forall k :: 0 <= k < |ts| ==> ts[k] == ts1[k + 1];
  }

  lemma RenamesNext<A>(t: string, r: Result<string, RewriteError>, ps: seq<string>, ts: seq<string>, used: nat,
                       lookup: map<string, NamedArg<A>>)
    requires |ps| == |ts| + 1 && (forall k :: 0 <= k < |ts| ==> |ts[k]| > 1) && Renames(r, ps, ts, used + 1, lookup)
    requires |t| > 1 && t[1..] in lookup
    ensures Renames(Emit("$" + Dec(used + 1), r), [""] + ps, [t] + ts, used, lookup)
  {
    InterleaveNext("$" + Dec(used + 1), ps, Dollars(used + 1, |ts|));
    var ts1 := [t] + ts;
    hide Interleave, Dec;
    KnownNext(t, ts, lookup);
    if !AllKnown(ts, lookup) {
      var k :| 0 <= k < |ts| && AllKnown(ts[..k], lookup) && ts[k][1..] !in lookup && r == Err(Missing(ts[k][1..]));
      KnownNext(t, ts[..k], lookup);
      assert ts1[..k + 1] == [t] + ts[..k];
      assert ts1[k + 1] == ts[k];
      assert ts1[k + 1][1..] !in lookup;
    }
  }

  lemma RenamesFails<A>(t: string, ps: seq<string>, ts: seq<string>, used: nat, lookup: map<string, NamedArg<A>>)
    requires |ps| == |ts| + 1 && (forall k :: 0 <= k < |ts| ==> |ts[k]| > 1)
    requires |t| > 1 && t[1..] !in lookup
    ensures Renames(Err(Missing(t[1..])), [""] + ps, [t] + ts, used, lookup)
  {
    var ts1 := [t] + ts;
    assert ts1[0] == t && AllKnown(ts1[..0], lookup);
  }

  /** Named rewriting replaces the k-th parameter by `$k` and nothing else, and reports the
      first parameter without an argument. */
  lemma {:induction false} NamedReplacesParams<A>(q: string, quoted: bool, used: nat, lookup: map<string, NamedArg<A>>)
    ensures Renames(Named(q, quoted, used, lookup), ParamPieces(q, quoted), Params(q, quoted), used, lookup)
    decreases |q|
  {
    if q != "" {
      if q[0] == '\'' {
        NamedReplacesParams(q[1..], !quoted, used, lookup);
        RenamesPrefixed("'", Named(q[1..], !quoted, used, lookup), ParamPieces(q[1..], !quoted), Params(q[1..],
              !quoted), used, lookup);
      } else if !quoted && StartsCast(q) {
        NamedReplacesParams(q[2..], quoted, used, lookup);
        RenamesPrefixed("::", Named(q[2..], quoted, used, lookup), ParamPieces(q[2..], quoted), Params(q[2..],
              quoted), used, lookup);
      } else if !quoted && StartsParam(q) {
        var rest, t := BehindParam(q), [q[0]] + ParamName(q);
        assert t[1..] == ParamName(q);
        if ParamName(q) in lookup {
          NamedReplacesParams(rest, quoted, used + 1, lookup);
          RenamesNext(t, Named(rest, quoted, used + 1, lookup), ParamPieces(rest, quoted), Params(rest, quoted),
                used, lookup);
        } else {
          RenamesFails(t, ParamPieces(rest, quoted), Params(rest, quoted), used, lookup);
        }
      } else {
        NamedReplacesParams(q[1..], quoted, used, lookup);
        RenamesPrefixed([q[0]], Named(q[1..], quoted, used, lookup), ParamPieces(q[1..], quoted), Params(q[1..],
              quoted), used, lookup);
      }
    }
  }

  predicate FormTheText(ps: seq<string>, ts: seq<string>, q: string) {
    |ps| == |ts| + 1 && Interleave(ps, ts) == q
  }

  /** The pieces and the parameters are the text. */
  lemma {:induction false} ParamPiecesAreTheText(q: string, quoted: bool)
    ensures FormTheText(ParamPieces(q, quoted), Params(q, quoted), q)
    decreases |q|
  {
    if q != "" {
      if q[0] == '\'' {
        ParamPiecesAreTheText(q[1..], !quoted);
        FormPrefixed("'", ParamPieces(q[1..], !quoted), Params(q[1..], !quoted), q[1..], q);
      } else if !quoted && StartsCast(q) {
        ParamPiecesAreTheText(q[2..], quoted);
        FormPrefixed("::", ParamPieces(q[2..], quoted), Params(q[2..], quoted), q[2..], q);
      } else if !quoted && StartsParam(q) {
        ParamPiecesAreTheText(BehindParam(q), quoted);
        FormParam(ParamPieces(BehindParam(q), quoted), Params(BehindParam(q), quoted), q);
      } else {
        ParamPiecesAreTheText(q[1..], quoted);
        FormPrefixed([q[0]], ParamPieces(q[1..], quoted), Params(q[1..], quoted), q[1..], q);
      }
    }
  }

  lemma FormPrefixed(c: string, ps: seq<string>, ts: seq<string>, rest: string, q: string)
    requires FormTheText(ps, ts, rest) && q == c + rest
    ensures FormTheText(Prefixed(c, ps), ts, q)
  {
    InterleavePrefixed(c, ps, ts);
  }

  lemma FormParam(ps: seq<string>, ts: seq<string>, q: string)
    requires StartsParam(q) && FormTheText(ps, ts, BehindParam(q))
    ensures FormTheText([""] + ps, [[q[0]] + ParamName(q)] + ts, q)
  {
    InterleaveNext([q[0]] + ParamName(q), ps, ts);
    assert q == [q[0]] + q[1..];
    assert q[1..] == ParamName(q) + BehindParam(q);
    assert [q[0]] + (ParamName(q) + BehindParam(q)) == [q[0]] + ParamName(q) + BehindParam(q);
  }

  /** There is a parameter to rewrite exactly when hasNamedParams says so. */
  lemma {:induction false} HasParamsMeansParams(q: string, quoted: bool)
    ensures HasParams(q, quoted) <==> Params(q, quoted) != []
    decreases |q|
  {
    if q != "" {
      if q[0] == '\'' {
        HasParamsMeansParams(q[1..], !quoted);
      } else if !quoted && StartsCast(q) {
        HasParamsMeansParams(q[2..], quoted);
      } else if !quoted && StartsParam(q) {
      } else {
        HasParamsMeansParams(q[1..], quoted);
      }
    }
  }

  // ----- nothing named is left

  predicate Inert(s: string) {
    forall k :: 0 <= k < |s| ==> s[k] != '\'' && s[k] != '@' && s[k] != ':'
  }

  lemma {:induction false} InertIsSkipped(s: string, rest: string, quoted: bool)
    requires Inert(s)
    ensures HasParams(s + rest, quoted) == HasParams(rest, quoted)
  {
    if s == "" {
      assert s + rest == rest;
    } else {
      assert (s + rest)[1..] == s[1..] + rest;
      InertIsSkipped(s[1..], rest, quoted);
    }
  }

  lemma DollarIsInert(k: nat)
    ensures Inert("$" + Dec(k))
  {
    DecValue(k);
  }

  /** The output begins like the input, or with a '$'. */
  lemma NamedBegins<A>(q: string, quoted: bool, used: nat, lookup: map<string, NamedArg<A>>)
    requires Named(q, quoted, used, lookup).Ok?
    ensures var out := Named(q, quoted, used, lookup).value;
      (q == "" ==> out == "") && (q != "" ==> out != "" && (out[0] == q[0] || out[0] == '$'))
  {
  }

  /** The output of named rewriting has no named parameters. */
  lemma {:induction false} NoParamsLeft<A>(q: string, quoted: bool, used: nat, lookup: map<string, NamedArg<A>>)
    requires Named(q, quoted, used, lookup).Ok?
    ensures !HasParams(Named(q, quoted, used, lookup).value, quoted)
    decreases |q|
  {
    if q != "" {
      var out := Named(q, quoted, used, lookup).value;
      if q[0] == '\'' {
        NoParamsLeft(q[1..], !quoted, used, lookup);
        assert out[1..] == Named(q[1..], !quoted, used, lookup).value;
      } else if !quoted && StartsCast(q) {
        NoParamsLeft(q[2..], quoted, used, lookup);
        assert out[2..] == Named(q[2..], quoted, used, lookup).value;
      } else if !quoted && StartsParam(q) {
        NoParamsLeft(BehindParam(q), quoted, used + 1, lookup);
        DollarIsInert(used + 1);
        InertIsSkipped("$" + Dec(used + 1), Named(BehindParam(q), quoted, used + 1, lookup).value, quoted);
      } else {
        NoParamsLeft(q[1..], quoted, used, lookup);
        NamedBegins(q[1..], quoted, used, lookup);
        assert out[1..] == Named(q[1..], quoted, used, lookup).value;
      }
    }
  }

  // ----- reading the placeholders back

  function DigitsAhead(s: string): (r: string)
    ensures |r| <= |s|
  {
    if s != "" && IsDigit(s[0]) then [s[0]] + DigitsAhead(s[1..]) else ""
  }

  /** The digit runs behind the unquoted dollar signs, as a server reads them. */
  function ReadDollars(s: string, quoted: bool): seq<string> {
    if s == "" then []
    else if s[0] == '\'' then ReadDollars(s[1..], !quoted)
    else if s[0] == '$' && !quoted then [DigitsAhead(s[1..])] + ReadDollars(s[1..], quoted)
    else ReadDollars(s[1..], quoted)
  }

  function Numerals(k: nat, n: nat): (r: seq<string>)
    ensures |r| == n
    decreases n
  {
    if n == 0 then [] else [Dec(k + 1)] + Numerals(k + 1, n - 1)
  }

  lemma {:induction false} FreeIsSkipped(s: string, rest: string, quoted: bool)
    requires Free(s, quoted, '$')
    ensures ReadDollars(s + rest, quoted) == ReadDollars(rest, QuotedAfter(s, quoted))
  {
    if s == "" {
      assert s + rest == rest;
    } else {
      assert (s + rest)[1..] == s[1..] + rest;
      FreeIsSkipped(s[1..], rest, if s[0] == '\'' then !quoted else quoted);
    }
  }

  lemma {:induction false} DigitsAheadOf(d: string, rest: string)
    requires AllDigits(d)
    ensures DigitsAhead(d + rest) == d + DigitsAhead(rest)
  {
    if d == "" {
      assert d + rest == rest;
    } else {
      assert (d + rest)[1..] == d[1..] + rest;
      DigitsAheadOf(d[1..], rest);
    }
  }

  lemma {:induction false} DigitsAreFree(d: string)
    requires AllDigits(d)
    ensures Free(d, false, '$') && !QuotedAfter(d, false)
  {
    if d != "" {
      DigitsAreFree(d[1..]);
    }
  }

  lemma DollarIsRead(k: nat, rest: string)
    ensures ReadDollars("$" + Dec(k) + rest, false) == [Dec(k) + DigitsAhead(rest)] + ReadDollars(rest, false)
  {
    var text := "$" + Dec(k) + rest;
    assert text[1..] == Dec(k) + rest;
    DecValue(k);
    DigitsAheadOf(Dec(k), rest);
    DigitsAreFree(Dec(k));
    FreeIsSkipped(Dec(k), rest, false);
  }

  predicate BeginsWithDigit(s: string) {
    s != "" && IsDigit(s[0])
  }

  /** All pieces but the last end outside quotes. */
  predicate EndsOutside(ps: seq<string>, quoted: bool)
    requires ps != []
  {
    |ps| > 1 ==> !QuotedAfter(ps[0], quoted) && EndsOutside(ps[1..], false)
  }

  lemma {:induction false} CutEndsOutside(ps: seq<string>, quoted: bool, x: char)
    requires ps != [] && Cut(ps, quoted, x)
    ensures EndsOutside(ps, quoted)
    decreases |ps|
  {
    if |ps| > 1 {
      CutEndsOutside(ps[1..], false, x);
    }
  }

  /** The unquoted dollar signs of a text. */
  function DollarCount(s: string, quoted: bool): nat {
    if s == "" then 0
    else (if s[0] == '$' && !quoted then 1 else 0) + DollarCount(s[1..], if s[0] == '\'' then !quoted else quoted)
  }

  lemma {:induction false} FreeMeansNone(s: string, quoted: bool)
    ensures Free(s, quoted, '$') <==> DollarCount(s, quoted) == 0
  {
    if s != "" {
      FreeMeansNone(s[1..], if s[0] == '\'' then !quoted else quoted);
    }
  }

  lemma {:induction false} DollarsAdd(s: string, rest: string, quoted: bool)
    ensures |ReadDollars(s + rest, quoted)| == DollarCount(s, quoted) + |ReadDollars(rest, QuotedAfter(s, quoted))|
  {
    if s == "" {
      assert s + rest == rest;
    } else {
      assert (s + rest)[1..] == s[1..] + rest;
      DollarsAdd(s[1..], rest, if s[0] == '\'' then !quoted else quoted);
    }
  }

  /** A dollar sign in a piece shows in the number of placeholders that are read. */
  lemma {:induction false} TooManyDollars(ps: seq<string>, quoted: bool, k: nat)
    requires ps != [] && EndsOutside(ps, quoted)
    ensures var n := |ps| - 1; var found := |ReadDollars(Interleave(ps, Dollars(k, n)), quoted)|;
      found >= n && (found == n <==> Cut(ps, quoted, '$'))
    decreases |ps|
  {
    var n := |ps| - 1;
    FreeMeansNone(ps[0], quoted);
    if n == 0 {
      DollarsAdd(ps[0], "", quoted);
      assert ps[0] + "" == ps[0];
    } else {
      var rest := Interleave(ps[1..], Dollars(k + 1, n - 1));
      var text := "$" + Dec(k + 1) + rest;
      assert Interleave(ps, Dollars(k, n)) == ps[0] + text;
      DollarsAdd(ps[0], text, quoted);
      DollarIsRead(k + 1, rest);
      TooManyDollars(ps[1..], false, k + 1);
    }
  }

  predicate NoDigitBehind(ps: seq<string>) {
    forall i :: 1 <= i < |ps| ==> !BeginsWithDigit(ps[i])
  }

  /** The k-th placeholder put between the pieces is read back as k, for all k and with nothing
      else, exactly when the pieces have no dollar sign of their own and none but the first
      begins with a digit. */
  lemma ReadBackExactlyWhen(ps: seq<string>, quoted: bool, k: nat)
    requires ps != [] && EndsOutside(ps, quoted)
    ensures var n := |ps| - 1;
      ReadDollars(Interleave(ps, Dollars(k, n)), quoted) == Numerals(k, n) <==> Cut(ps, quoted, '$') && NoDigitBehind(ps)
  {
    TooManyDollars(ps, quoted, k);
    if Cut(ps, quoted, '$') {
      ReadBack(ps, quoted, k);
    }
  }

  lemma {:induction false} ReadBack(ps: seq<string>, quoted: bool, k: nat)
    requires ps != [] && Cut(ps, quoted, '$')
    ensures var n := |ps| - 1;
      ReadDollars(Interleave(ps, Dollars(k, n)), quoted) == Numerals(k, n) <==> NoDigitBehind(ps)
    decreases |ps|
  {
    var n := |ps| - 1;
    if n == 0 {
      FreeIsSkipped(ps[0], "", quoted);
      assert ps[0] + "" == ps[0];
    } else {
      var rest := Interleave(ps[1..], Dollars(k + 1, n - 1));
      var text := "$" + Dec(k + 1) + rest;
      assert Interleave(ps, Dollars(k, n)) == ps[0] + text;
      FreeIsSkipped(ps[0], text, quoted);
      DollarIsRead(k + 1, rest);
      RestBegins(ps[1..], k + 1);
      ReadBack(ps[1..], false, k + 1);
      DigitsBehind(ps);
      SameHead(Dec(k + 1), DigitsAhead(rest), ReadDollars(rest, false), Numerals(k + 1, n - 1));
    }
  }

  lemma DigitsBehind(ps: seq<string>)
    requires |ps| > 1
    ensures NoDigitBehind(ps) <==> !BeginsWithDigit(ps[1]) && NoDigitBehind(ps[1..])
  {
    assert forall i :: 2 <= i < |ps| ==> ps[i] == ps[1..][i - 1];
    assert forall i :: 1 <= i < |ps| - 1 ==> ps[1..][i] == ps[i + 1];
  }

  lemma SameHead(d: string, extra: string, xs: seq<string>, ys: seq<string>)
    ensures [d + extra] + xs == [d] + ys <==> extra == "" && xs == ys
  {
    var l, r := [d + extra] + xs, [d] + ys;
    if l == r {
      assert l[0] == r[0] && l[1..] == xs && r[1..] == ys;
    } else if extra == "" {
      assert d + extra == d;
    }
  }

  lemma RestBegins(ps: seq<string>, k: nat)
    requires ps != []
    ensures DigitsAhead(Interleave(ps, Dollars(k, |ps| - 1))) == "" <==> !BeginsWithDigit(ps[0])
  {
    var n := |ps| - 1;
    if n > 0 {
      var tail := Dec(k + 1) + Interleave(ps[1..], Dollars(k + 1, n - 1));
      assert Interleave(ps, Dollars(k, n)) == ps[0] + ("$" + tail);
      assert ("$" + tail)[0] == '$';
      if ps[0] == "" {
        assert ps[0] + ("$" + tail) == "$" + tail;
      }
    }
  }

  lemma {:induction false} FreeAdds(s: string, rest: string, quoted: bool)
    ensures Free(s + rest, quoted, '$') <==> Free(s, quoted, '$') && Free(rest, QuotedAfter(s, quoted), '$')
  {
    if s == "" {
      assert s + rest == rest;
    } else {
      assert (s + rest)[1..] == s[1..] + rest;
      FreeAdds(s[1..], rest, if s[0] == '\'' then !quoted else quoted);
    }
  }

  /** Neither a quote nor a dollar sign. */
  predicate Plain(t: string) {
    '\'' !in t && '$' !in t
  }

  lemma {:induction false} PlainIsFree(t: string)
    requires Plain(t)
    ensures Free(t, false, '$') && !QuotedAfter(t, false)
  {
    if t != "" {
      PlainIsFree(t[1..]);
    }
  }

  predicate AllPlain(ts: seq<string>) {
    forall k :: 0 <= k < |ts| ==> Plain(ts[k])
  }

  /** The pieces have no dollar sign exactly when the text they were cut from has none. */
  lemma {:induction false} CutMeansFree(ps: seq<string>, ts: seq<string>, quoted: bool)
    requires |ps| == |ts| + 1 && EndsOutside(ps, quoted) && AllPlain(ts)
    ensures Cut(ps, quoted, '$') <==> Free(Interleave(ps, ts), quoted, '$')
    decreases |ts|
  {
    if ts != [] {
      var rest := Interleave(ps[1..], ts[1..]);
      assert Interleave(ps, ts) == ps[0] + (ts[0] + rest);
      FreeAdds(ps[0], ts[0] + rest, quoted);
      PlainIsFree(ts[0]);
      FreeAdds(ts[0], rest, false);
      CutMeansFree(ps[1..], ts[1..], false);
    }
  }

  lemma {:induction false} ParamsArePlain(q: string, quoted: bool)
    ensures AllPlain(Params(q, quoted))
    decreases |q|
  {
    if q != "" {
      if q[0] == '\'' {
        ParamsArePlain(q[1..], !quoted);
      } else if !quoted && StartsCast(q) {
        ParamsArePlain(q[2..], quoted);
      } else if !quoted && StartsParam(q) {
        ParamsArePlain(BehindParam(q), quoted);
        NameIsPlain(q[1..]);
      } else {
        ParamsArePlain(q[1..], quoted);
      }
    }
  }

  lemma {:induction false} NameIsPlain(s: string)
    ensures Plain(s[..IdentLength(s)])
  {
    if s != "" && IsIdentPart(s[0]) {
      NameIsPlain(s[1..]);
      assert s[..IdentLength(s)] == [s[0]] + s[1..][..IdentLength(s[1..])];
    }
  }

  /** The output of positional rewriting is read back as 1..n exactly when the query has no
      unquoted dollar sign of its own and no mark is directly followed by a digit. */
  lemma PositionalIsReadBack(q: string, count: nat)
    requires Positional(q, false, 0, count).Ok?
    ensures var ps := MarkPieces(q, false);
      ReadDollars(Positional(q, false, 0, count).value, false) == Numerals(0, count)
      <==> Free(q, false, '$') && NoDigitBehind(ps)
  {
    PositionalReplacesMarks(q, false, 0, count);
    MarkPiecesAreTheText(q, false);
    CutEndsOutside(MarkPieces(q, false), false, '?');
    CutMeansFree(MarkPieces(q, false), Marks(|MarkPieces(q, false)| - 1), false);
    ReadBackExactlyWhen(MarkPieces(q, false), false, 0);
  }

  /** So a digit behind a mark changes the number, and a dollar sign in the query adds one. */
  lemma PositionalIsMisread()
    ensures Positional("?1", false, 0, 1).Ok? && Positional("$1?", false, 0, 1).Ok?
    ensures ReadDollars(Positional("?1", false, 0, 1).value, false) != Numerals(0, 1)
    ensures ReadDollars(Positional("$1?", false, 0, 1).value, false) != Numerals(0, 1)
  {
    assert "?1"[1..] == "1" && "$1?"[1..] == "1?" && "1?"[1..] == "?";
    assert Positional("", false, 1, 1).Ok? && Positional("?", false, 0, 1).Ok? && Positional("1?", false, 0, 1).Ok?;
    assert Positional("1", false, 1, 1).Ok?;
    PositionalIsReadBack("?1", 1);
    PositionalIsReadBack("$1?", 1);
    assert "1"[1..] == "" && MarkPieces("", false) == [""];
    assert MarkPieces("1", false) == Prefixed("1", [""]) == ["1" + ""] + [];
    assert MarkPieces("?1", false) == [""] + MarkPieces("1", false);
    assert BeginsWithDigit(MarkPieces("?1", false)[1]);
  }

  lemma {:induction false} ParamPiecesBegin(q: string, quoted: bool)
    ensures forall i :: 1 <= i < |ParamPieces(q, quoted)| ==> !BeginsWithDigit(ParamPieces(q, quoted)[i])
    ensures q == "" || !IsIdentPart(q[0]) ==> !BeginsWithDigit(ParamPieces(q, quoted)[0])
    decreases |q|
  {
    if q != "" {
      if q[0] == '\'' {
        ParamPiecesBegin(q[1..], !quoted);
      } else if !quoted && StartsCast(q) {
        ParamPiecesBegin(q[2..], quoted);
      } else if !quoted && StartsParam(q) {
        ParamPiecesBegin(BehindParam(q), quoted);
      } else {
        ParamPiecesBegin(q[1..], quoted);
      }
    }
  }

  lemma {:induction false} ParamPiecesEndOutside(q: string, quoted: bool)
    ensures EndsOutside(ParamPieces(q, quoted), quoted)
    decreases |q|
  {
    if q != "" {
      if q[0] == '\'' {
        ParamPiecesEndOutside(q[1..], !quoted);
        PrefixEndsOutside("'", ParamPieces(q[1..], !quoted), quoted);
      } else if !quoted && StartsCast(q) {
        ParamPiecesEndOutside(q[2..], quoted);
        assert "::"[1..] == ":" && ":"[1..] == "";
        PrefixEndsOutside(":", ParamPieces(q[2..], quoted), quoted);
        PrefixEndsOutside(":", Prefixed(":", ParamPieces(q[2..], quoted)), quoted);
        assert ":" + (":" + ParamPieces(q[2..], quoted)[0]) == "::" + ParamPieces(q[2..], quoted)[0];
        assert Prefixed(":", Prefixed(":", ParamPieces(q[2..], quoted))) == Prefixed("::", ParamPieces(q[2..], quoted));
      } else if !quoted && StartsParam(q) {
        ParamPiecesEndOutside(BehindParam(q), quoted);
        assert ([""] + ParamPieces(BehindParam(q), quoted))[1..] == ParamPieces(BehindParam(q), quoted);
      } else {
        ParamPiecesEndOutside(q[1..], quoted);
        PrefixEndsOutside([q[0]], ParamPieces(q[1..], quoted), quoted);
      }
    }
  }

  lemma PrefixEndsOutside(c: string, ps: seq<string>, quoted: bool)
    requires |c| == 1 && ps != [] && EndsOutside(ps, if c[0] == '\'' then !quoted else quoted)
    ensures EndsOutside(Prefixed(c, ps), quoted)
  {
    assert Prefixed(c, ps)[1..] == ps[1..];
    assert (c + ps[0])[1..] == ps[0];
  }

  /** The output of named rewriting is read back as 1..n exactly when the query has no unquoted
      dollar sign of its own: no parameter is followed by a digit. */
  lemma NamedIsReadBack<A>(q: string, lookup: map<string, NamedArg<A>>)
    requires Named(q, false, 0, lookup).Ok?
    ensures ReadDollars(Named(q, false, 0, lookup).value, false) == Numerals(0, |Params(q, false)|)
      <==> Free(q, false, '$')
  {
    NamedReplacesParams(q, false, 0, lookup);
    ParamPiecesBegin(q, false);
    ParamPiecesEndOutside(q, false);
    ParamPiecesAreTheText(q, false);
    ParamsArePlain(q, false);
    CutMeansFree(ParamPieces(q, false), Params(q, false), false);
    ReadBackExactlyWhen(ParamPieces(q, false), false, 0);
  }

  /** So a dollar sign in the query adds a placeholder that no parameter stands for. */
  lemma NamedIsMisread<A>(value: A)
    ensures var sql := Named("$1 :a", false, 0, map["a" := NamedArg("a", value)]);
      sql.Ok? && ReadDollars(sql.value, false) != Numerals(0, |Params("$1 :a", false)|)
  {
    var lookup := map["a" := NamedArg("a", value)];
    var q := "$1 :a";
    assert q[1..] == "1 :a" && q[1..][1..] == " :a" && q[1..][1..][1..] == ":a";
    ParamAlone(lookup);
    assert Named(" :a", false, 0, lookup).Ok? && Named("1 :a", false, 0, lookup).Ok?;
    assert !StartsParam(q) && Named(q, false, 0, lookup).Ok?;
    NamedIsReadBack(q, lookup);
  }

  lemma ParamAlone<A>(lookup: map<string, NamedArg<A>>)
    requires "a" in lookup
    ensures Named(":a", false, 0, lookup).Ok?
  {
    var q := ":a";
    assert q[1..] == "a" && "a"[1..] == "" && IdentLength("a") == 1;
    assert ParamName(q) == "a" && BehindParam(q) == "";
  }
}
