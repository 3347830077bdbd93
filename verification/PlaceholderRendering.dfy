/** renderSqlWithParams of the conformance tool: placeholders `$n` down to `$1` are replaced
    in place, one index after the other. When does that equal replacing all of them at once? */
module PlaceholderRendering {
  import opened Decimal
  import opened Wrappers

  // ----- the code

  predicate DollarFree(s: string) {
    '$' !in s
  }

  /** All occurrences of `from`, left to right, never looking into what was inserted. */
  function ReplaceAll(text: string, from: string, to: string): string
    requires from != ""
    decreases |text|
  {
    if text == "" then ""
    else if from <= text then to + ReplaceAll(text[|from|..], from, to)
    else [text[0]] + ReplaceAll(text[1..], from, to)
  }

  lemma NoMatchHere(t: string, rest: string, from: string, to: string)
    requires from != "" && t != "" && !(from <= t) && rest == t[1..]
    ensures ReplaceAll(t, from, to) == [t[0]] + ReplaceAll(rest, from, to)
  {
  }

  lemma MatchHere(rest: string, from: string, to: string)
    requires from != ""
    ensures ReplaceAll(from + rest, from, to) == to + ReplaceAll(rest, from, to)
  {
    assert (from + rest)[|from|..] == rest;
  }

  /** std::string::find from the end of `before`; the ghost results name the pieces around the hit. */
  method Find(r: string, from: string, start: nat, ghost to: string) returns (pos: nat)
    requires from != "" && start <= |r|
    ensures start <= pos <= |r|
    ensures pos < |r| ==> from <= r[pos..]
    ensures ReplaceAll(r[start..], from, to) == r[start..pos] + ReplaceAll(r[pos..], from, to)
  {
    pos := start;
    while pos < |r| && !(from <= r[pos..])
      invariant start <= pos <= |r|
      invariant ReplaceAll(r[start..], from, to) == r[start..pos] + ReplaceAll(r[pos..], from, to)
    {
      ghost var later := ReplaceAll(r[pos + 1..], from, to);
      NoMatchHere(r[pos..], r[pos + 1..], from, to);
      assert r[start..pos] + ([r[pos]] + later) == r[start..pos + 1] + later;
      pos := pos + 1;
    }
  }

  /** One pass of the loop; `done` is the text before `start`, `rest` the text from there. */
  method ReplaceNext(r: string, from: string, to: string, start: nat, ghost done: string, ghost rest: string)
    returns (found: bool, r': string, start': nat, ghost done': string, ghost rest': string)
    requires from != "" && r == done + rest && start == |done|
    ensures r' == done' + rest' && start' == |done'|
    ensures found ==> done + ReplaceAll(rest, from, to) == done' + ReplaceAll(rest', from, to) && |rest'| < |rest|
    ensures !found ==> (r', done', rest') == (r, done, rest) && ReplaceAll(rest, from, to) == rest
  {
    assert r[start..] == rest;
    var pos := Find(r, from, start, to);
    ghost var middle := r[start..pos];
    if pos == |r| {
      assert middle + "" == rest;
      return false, r, start, done, rest;
    }
    hide ReplaceAll;
    ghost var tail := r[pos + |from|..];
    assert r[pos..] == from + tail;
    MatchHere(tail, from, to);
    done', rest' := done + middle + to, tail;
    ghost var replaced := ReplaceAll(tail, from, to);
    Assoc(done, middle, to + replaced);
    Assoc(done + middle, to, replaced);
    assert r[..pos] == done + middle;
    r' := r[..pos] + to + r[pos + |from|..];
    return true, r', pos + |to|, done', rest';
  }

  method ReplaceAllInPlace(input: string, from: string, to: string) returns (r: string)
    ensures r == if from == "" then input else ReplaceAll(input, from, to)
  {
    r := input;
    if from == "" {
      return;
    }
    var start := 0;
    ghost var whole, done, rest := ReplaceAll(input, from, to), "", input;
    var found := true;
    while found
      invariant r == done + rest && 0 <= start == |done|
      invariant whole == done + ReplaceAll(rest, from, to)
      invariant !found ==> ReplaceAll(rest, from, to) == rest
      decreases found, |rest|
    {
      found, r, start, done, rest := ReplaceNext(r, from, to, start, done, rest);
    }
  }

  function Placeholder(k: nat): string {
    "$" + Dec(k)
  }

  /** Replacement of `$k`, ..., `$1`, in this order. */
  function Render(text: string, literals: seq<string>, k: nat): string
    requires k <= |literals|
    decreases k
  {
    if k == 0 then text
    else Render(ReplaceAll(text, Placeholder(k), literals[k - 1]), literals, k - 1)
  }

  /** `params` are the literals of a JSON array, `None` any other JSON value. */
  method RenderSqlWithParams(sql: string, params: Option<seq<string>>) returns (rendered: string)
    ensures rendered == if params.None? then sql else Render(sql, params.value, |params.value|)
  {
    if params.None? {
      return sql;
    }
    var literals := params.value;
    rendered := sql;
    for idx := |literals| downto 0
      invariant Render(rendered, literals, idx) == Render(sql, literals, |literals|)
    {
      rendered := ReplaceAllInPlace(rendered, Placeholder(idx + 1), literals[idx]);
    }
  }

  // ----- templates and simultaneous substitution

  datatype Token = Ch(c: char) | Hole(index: nat)

  function Written(t: Token): string {
    match t
    case Ch(c) => [c]
    case Hole(k) => Placeholder(k)
  }

  function Flatten(ts: seq<Token>): string {
    if ts == [] then "" else Written(ts[0]) + Flatten(ts[1..])
  }

  predicate IsDollarLike(t: Token) {
    t.Hole? || t == Ch('$')
  }

  predicate IsDigitChar(t: Token) {
    t.Ch? && IsDigit(t.c)
  }

  /** Every '$' of the text is followed by no digit at all or by a whole index in 1..n. */
  predicate WellFormed(ts: seq<Token>, n: nat) {
    && (forall i :: 0 <= i < |ts| && ts[i].Hole? ==> 1 <= ts[i].index <= n)
    && (forall i :: 0 <= i < |ts| - 1 && IsDollarLike(ts[i]) ==> !IsDigitChar(ts[i + 1]))
  }

  function Substitute(ts: seq<Token>, literals: seq<string>): string
    requires WellFormed(ts, |literals|)
  {
    if ts == [] then ""
    else
      (match ts[0] case Ch(c) => [c] case Hole(k) => literals[k - 1]) + Substitute(ts[1..], literals)
  }

  /** No placeholder is followed directly by one that is more than ten times as large, and a
      lone '$' is followed by no placeholder but `$1`. */
  predicate SafeNeighbours(t: Token, u: Token) {
    u.Hole? ==> (t.Hole? ==> u.index <= 10 * t.index) && (t == Ch('$') ==> u.index <= 1)
  }

  predicate Safe(ts: seq<Token>) {
    forall i :: 0 <= i < |ts| - 1 ==> SafeNeighbours(ts[i], ts[i + 1])
  }

  // ----- safe templates are rendered by simultaneous substitution

  /** The text after the replacement of every index above `k`. */
  function Partly(ts: seq<Token>, literals: seq<string>, k: nat): string
    requires WellFormed(ts, |literals|)
  {
    if ts == [] then ""
    else
      (if ts[0].Hole? && ts[0].index > k then literals[ts[0].index - 1] else Written(ts[0]))
      + Partly(ts[1..], literals, k)
  }

  lemma {:induction false} ReplaceSkips(s: string, rest: string, from: string, to: string)
    requires DollarFree(s) && from != "" && from[0] == '$'
    ensures ReplaceAll(s + rest, from, to) == s + ReplaceAll(rest, from, to)
  {
    if s == "" {
      assert s + rest == rest;
    } else {
      assert (s + rest)[1..] == s[1..] + rest;
      ReplaceSkips(s[1..], rest, from, to);
      assert !(from <= s + rest) by { assert (s + rest)[0] == s[0]; }
    }
  }

  lemma DecIsDollarFree(k: nat)
    ensures DollarFree(Dec(k)) && Dec(k) != ""
  {
    DecValue(k);
  }

  lemma PrefixAt(p: string, s: string, i: nat)
    ensures p <= s && i < |p| ==> p[i] == s[i]
  {
  }

  lemma PrefixSplits(p: string, s: string, t: string)
    ensures p <= s + t ==> (if |p| <= |s| then p <= s else s <= p && t != "")
  {
    assert |s| <= |p| <= |s + t| && p <= s + t ==> s == (s + t)[..|s|] == p[..|s|];
  }

  /** After a '$' token that is not `$k` itself, the text does not go on like `$k`. */
  lemma NoFalseMatch(ts: seq<Token>, literals: seq<string>, k: nat)
    requires WellFormed(ts, |literals|) && Safe(ts) && 1 <= k <= |literals|
    requires ts != [] && IsDollarLike(ts[0]) && (ts[0].Hole? ==> ts[0].index < k)
    ensures var own := if ts[0].Hole? then Dec(ts[0].index) else "";
      !(Dec(k) <= own + Partly(ts[1..], literals, k))
  {
    var own := if ts[0].Hole? then Dec(ts[0].index) else "";
    var rest := Partly(ts[1..], literals, k);
    DecValue(k);
    if |ts| > 1 {
      assert SafeNeighbours(ts[0], ts[1]);
      RestBegins(ts[1..], literals, k);
    }
    PrefixAt(Dec(k), own + rest, |own|);
    PrefixSplits(Dec(k), own, rest);
    if ts[0].Hole? {
      if Dec(k) <= own {
        PrefixIsTenth(k, ts[0].index);
      } else if own <= Dec(k) {
        PrefixIsTenth(ts[0].index, k);
      }
    }
  }

  /** The text of a nonempty template begins like a digit only behind a digit or a replaced placeholder. */
  lemma RestBegins(ts: seq<Token>, literals: seq<string>, k: nat)
    requires WellFormed(ts, |literals|) && ts != []
    ensures var rest := Partly(ts, literals, k);
      rest != "" && IsDigit(rest[0]) ==> IsDigitChar(ts[0]) || (ts[0].Hole? && ts[0].index > k)
  {
  }

  lemma ConsPrefix(c: char, p: string, s: string)
    ensures [c] + p <= [c] + s ==> p <= s
  {
    assert ([c] + p)[1..] == p && ([c] + s)[1..] == s;
  }

  lemma DollarKept(own: string, rest: string, k: nat, to: string)
    requires DollarFree(own) && !(Dec(k) <= own + rest)
    ensures ReplaceAll("$" + own + rest, Placeholder(k), to) == "$" + own + ReplaceAll(rest, Placeholder(k), to)
  {
    var text := "$" + own + rest;
    assert text[1..] == own + rest;
    assert text == ['$'] + (own + rest);
    ConsPrefix('$', Dec(k), own + rest);
    NoMatchHere(text, own + rest, Placeholder(k), to);
    ReplaceSkips(own, rest, Placeholder(k), to);
  }

  /** No literal but that of `$1`, which is inserted last, holds a '$'. */
  predicate LaterDollarFree(literals: seq<string>) {
    forall i :: 1 <= i < |literals| ==> DollarFree(literals[i])
  }

  lemma KeptInSafe(ts: seq<Token>, literals: seq<string>, k: nat)
    requires WellFormed(ts, |literals|) && Safe(ts) && 1 <= k <= |literals|
    requires ts != [] && IsDollarLike(ts[0]) && (ts[0].Hole? ==> ts[0].index < k)
    ensures var rest, to := Partly(ts[1..], literals, k), literals[k - 1];
      ReplaceAll(Written(ts[0]) + rest, Placeholder(k), to) == Written(ts[0]) + ReplaceAll(rest, Placeholder(k), to)
  {
    var own := if ts[0].Hole? then Dec(ts[0].index) else "";
    if ts[0].Hole? {
      DecIsDollarFree(ts[0].index);
    }
    NoFalseMatch(ts, literals, k);
    DollarKept(own, Partly(ts[1..], literals, k), k, literals[k - 1]);
    assert Written(ts[0]) == "$" + own;
  }

  lemma {:induction false} OneIndex(ts: seq<Token>, literals: seq<string>, k: nat)
    requires WellFormed(ts, |literals|) && Safe(ts) && 1 <= k <= |literals|
    requires LaterDollarFree(literals)
    ensures ReplaceAll(Partly(ts, literals, k), Placeholder(k), literals[k - 1]) == Partly(ts, literals, k - 1)
  {
    if ts != [] {
      var rest := Partly(ts[1..], literals, k);
      OneIndex(ts[1..], literals, k);
      if IsDollarLike(ts[0]) && (ts[0].Hole? ==> ts[0].index < k) {
        KeptInSafe(ts, literals, k);
      } else if ts[0] == Hole(k) {
        MatchHere(rest, Placeholder(k), literals[k - 1]);
      } else if ts[0].Hole? {
        ReplaceSkips(literals[ts[0].index - 1], rest, Placeholder(k), literals[k - 1]);
      } else {
        ReplaceSkips([ts[0].c], rest, Placeholder(k), literals[k - 1]);
      }
    }
  }

  lemma {:induction false} RenderFrom(ts: seq<Token>, literals: seq<string>, k: nat)
    requires WellFormed(ts, |literals|) && Safe(ts) && k <= |literals|
    requires LaterDollarFree(literals)
    ensures Render(Partly(ts, literals, k), literals, k) == Partly(ts, literals, 0)
  {
    if k > 0 {
      OneIndex(ts, literals, k);
      RenderFrom(ts, literals, k - 1);
    }
  }

  lemma {:induction false} PartlyEnds(ts: seq<Token>, literals: seq<string>)
    requires WellFormed(ts, |literals|)
    ensures Partly(ts, literals, |literals|) == Flatten(ts)
    ensures Partly(ts, literals, 0) == Substitute(ts, literals)
  {
    if ts != [] {
      PartlyEnds(ts[1..], literals);
    }
  }

  lemma SafeIsSubstituted(ts: seq<Token>, literals: seq<string>)
    requires WellFormed(ts, |literals|) && Safe(ts)
    requires LaterDollarFree(literals)
    ensures Render(Flatten(ts), literals, |literals|) == Substitute(ts, literals)
  {
    PartlyEnds(ts, literals);
    RenderFrom(ts, literals, |literals|);
  }

  // ----- unsafe templates are not

  /** A text cut at its dollar signs. */
  function Join(parts: seq<string>): string
    requires parts != []
  {
    if |parts| == 1 then parts[0] else parts[0] + "$" + Join(parts[1..])
  }

  predicate Parts(parts: seq<string>) {
    parts != [] && forall i :: 0 <= i < |parts| ==> DollarFree(parts[i])
  }

  /** One replacement of `$k` by a single character, on the parts. */
  function Pass(parts: seq<string>, k: nat, c: char): (r: seq<string>)
    requires parts != []
    ensures r != [] && parts[0] <= r[0]
  {
    if |parts| == 1 then parts
    else
      var later := Pass(parts[1..], k, c);
      if Dec(k) <= parts[1] then [parts[0] + [c] + later[0][|Dec(k)|..]] + later[1..]
      else [parts[0]] + later
  }

  lemma {:induction false} JoinBegins(parts: seq<string>, p: string)
    requires Parts(parts) && DollarFree(p)
    ensures p <= Join(parts) <==> p <= parts[0]
    ensures parts[0] <= Join(parts)
  {
    var n := |parts[0]|;
    assert |parts| > 1 ==> Join(parts)[n] == '$';
    PrefixAt(p, Join(parts), n);
  }

  lemma {:induction false} JoinHead(parts: seq<string>, n: nat)
    requires parts != [] && n <= |parts[0]|
    ensures Join([parts[0][n..]] + parts[1..]) == Join(parts)[n..]
  {
    assert ([parts[0][n..]] + parts[1..])[1..] == parts[1..];
  }

  lemma JoinPrepend(s: string, parts: seq<string>)
    requires parts != []
    ensures Join([s + parts[0]] + parts[1..]) == s + Join(parts)
  {
    assert ([s + parts[0]] + parts[1..])[1..] == parts[1..];
  }

  lemma HitBehindHead(head: string, k: nat, tail: string, to: string)
    requires DollarFree(head)
    ensures ReplaceAll(head + "$" + (Dec(k) + tail), Placeholder(k), to)
         == head + to + ReplaceAll(tail, Placeholder(k), to)
    ensures ReplaceAll(Dec(k) + tail, Placeholder(k), to) == Dec(k) + ReplaceAll(tail, Placeholder(k), to)
  {
    var from := Placeholder(k);
    assert head + "$" + (Dec(k) + tail) == head + (from + tail);
    ReplaceSkips(head, from + tail, from, to);
    MatchHere(tail, from, to);
    DecIsDollarFree(k);
    ReplaceSkips(Dec(k), tail, from, to);
  }

  lemma PassMatches(head: string, next: seq<string>, later: seq<string>, k: nat, c: char)
    requires DollarFree(head) && Parts(next) && Dec(k) <= next[0]
    requires later != [] && next[0] <= later[0]
    requires ReplaceAll(Join(next), Placeholder(k), [c]) == Join(later)
    ensures ReplaceAll(head + "$" + Join(next), Placeholder(k), [c])
         == Join([head + [c] + later[0][|Dec(k)|..]] + later[1..])
  {
    var n, text := |Dec(k)|, Join(next);
    JoinBegins(next, next[0]);
    assert Dec(k) + text[n..] == text;
    HitBehindHead(head, k, text[n..], [c]);
    JoinHead(later, n);
    JoinPrepend(head + [c], [later[0][n..]] + later[1..]);
  }

  lemma LoneDollarKept(text: string, k: nat, to: string)
    requires !(Dec(k) <= text)
    ensures ReplaceAll("$" + text, Placeholder(k), to) == "$" + ReplaceAll(text, Placeholder(k), to)
  {
    assert "" + text == text;
    assert "$" + "" + text == "$" + text;
    DollarKept("", text, k, to);
    assert "$" + "" == "$";
  }

  lemma MissBehindHead(head: string, text: string, k: nat, to: string)
    requires DollarFree(head) && !(Dec(k) <= text)
    ensures ReplaceAll(head + "$" + text, Placeholder(k), to) == head + "$" + ReplaceAll(text, Placeholder(k), to)
  {
    hide ReplaceAll, Dec;
    Assoc(head, "$", text);
    ReplaceSkips(head, "$" + text, Placeholder(k), to);
    LoneDollarKept(text, k, to);
    Assoc(head, "$", ReplaceAll(text, Placeholder(k), to));
  }

  lemma PassMisses(head: string, next: seq<string>, later: seq<string>, k: nat, c: char)
    requires DollarFree(head) && Parts(next) && !(Dec(k) <= next[0]) && later != []
    requires ReplaceAll(Join(next), Placeholder(k), [c]) == Join(later)
    ensures ReplaceAll(head + "$" + Join(next), Placeholder(k), [c]) == Join([head] + later)
  {
    DecIsDollarFree(k);
    JoinBegins(next, Dec(k));
    MissBehindHead(head, Join(next), k, [c]);
    assert ([head] + later)[1..] == later;
  }

  lemma {:induction false} PassIsReplacement(parts: seq<string>, k: nat, c: char)
    requires Parts(parts) && c != '$'
    ensures Parts(Pass(parts, k, c))
    ensures ReplaceAll(Join(parts), Placeholder(k), [c]) == Join(Pass(parts, k, c))
  {
    if |parts| == 1 {
      assert parts[0] == parts[0] + "";
      ReplaceSkips(parts[0], "", Placeholder(k), [c]);
    } else {
      PassIsReplacement(parts[1..], k, c);
      var later := Pass(parts[1..], k, c);
      if Dec(k) <= parts[1] {
        PassMatches(parts[0], parts[1..], later, k, c);
      } else {
        PassMisses(parts[0], parts[1..], later, k, c);
      }
    }
  }

  // What the remaining passes are bound to remove.

  /** The length of the longest prefix of `s` that is the numeral of one of k, ..., 1. */
  function Longest(s: string, k: nat): nat {
    if k == 0 then 0 else if Dec(k) <= s then |Dec(k)| else Longest(s, k - 1)
  }

  function Due(parts: seq<string>, k: nat): nat
    requires parts != []
  {
    if |parts| == 1 then 0 else Longest(parts[1], k) + Due(parts[1..], k)
  }

  lemma {:induction false} LongestBounds(s: string, k: nat, j: nat)
    requires j <= k
    ensures Longest(s, k) <= |Dec(k)|
    ensures 1 <= j && Dec(j) <= s ==> Longest(s, k) >= |Dec(j)|
  {
    if k > 0 {
      LengthGrows(j, k);
      if j < k {
        LongestBounds(s, k - 1, j);
      } else {
        LongestBounds(s, k - 1, k - 1);
      }
      LengthGrows(k - 1, k);
    }
  }

  lemma {:induction false} LongestGrows(s: string, t: string, k: nat)
    requires s <= t
    ensures Longest(s, k) <= Longest(t, k)
  {
    if k > 0 {
      LongestGrows(s, t, k - 1);
      LongestBounds(s, k - 1, k - 1);
      LengthGrows(k - 1, k);
    }
  }

  /** A pass removes what it owes, so that the rest stays due. */
  lemma {:induction false} PassPays(parts: seq<string>, k: nat, c: char)
    requires Parts(parts) && k >= 1
    ensures |Join(Pass(parts, k, c))| + Due(parts, k) <= |Join(parts)| + Due(Pass(parts, k, c), k - 1)
    decreases |parts|
  {
    if |parts| > 1 {
      var later := Pass(parts[1..], k, c);
      PassPays(parts[1..], k, c);
      if Dec(k) <= parts[1] {
        var n := |Dec(k)|;
        JoinHead(later, n);
        JoinPrepend(parts[0] + [c], [later[0][n..]] + later[1..]);
        assert Pass(parts, k, c)[1..] == later[1..];
        DueIgnoresHead(Pass(parts, k, c), later, k - 1);
      } else {
        assert ([parts[0]] + later)[1..] == later;
        LongestGrows(parts[1], later[0], k - 1);
      }
    }
  }

  lemma DueIgnoresHead(a: seq<string>, b: seq<string>, k: nat)
    requires a != [] && b != [] && a[1..] == b[1..]
    ensures Due(a, k) == Due(b, k)
  {
    assert |a| == |b|;
    if |a| > 1 {
      assert a[1] == a[1..][0] == b[1];
    }
  }

  lemma {:induction false} RenderRemovesWhatIsDue(parts: seq<string>, k: nat, c: char, literals: seq<string>)
    requires Parts(parts) && c != '$' && k <= |literals| && forall l :: l in literals ==> l == [c]
    ensures |Render(Join(parts), literals, k)| + Due(parts, k) <= |Join(parts)|
    decreases k
  {
    if k > 0 {
      assert literals[k - 1] in literals;
      PassIsReplacement(parts, k, c);
      PassPays(parts, k, c);
      RenderRemovesWhatIsDue(Pass(parts, k, c), k - 1, c, literals);
    } else {
      DueIsZero(parts);
    }
  }

  lemma {:induction false} DueIsZero(parts: seq<string>)
    requires parts != []
    ensures Due(parts, 0) == 0
  {
    if |parts| > 1 {
      DueIsZero(parts[1..]);
    }
  }

  // A neighbourhood that makes some pass remove more than it owes.

  /** Some part becomes the numeral of `g` once the larger placeholder `$m` right behind it
      has been replaced by `c`. */
  predicate Bad(parts: seq<string>, g: nat, m: nat, c: char) {
    |parts| >= 3 &&
    ((parts[1] + [c] == Dec(g) && Dec(m) <= parts[2]) || Bad(parts[1..], g, m, c))
  }

  predicate PaysMore(parts: seq<string>, k: nat, c: char)
    requires parts != [] && k >= 1
  {
    |Join(Pass(parts, k, c))| + Due(parts, k) < |Join(parts)| + Due(Pass(parts, k, c), k - 1)
  }

  lemma BadIgnoresHead(a: seq<string>, b: seq<string>, g: nat, m: nat, c: char)
    requires Bad(a, g, m, c) && b != [] && a[1..] == b[1..]
    ensures Bad(b, g, m, c)
  {
    assert |a| == |b|;
    assert a[1] == a[1..][0] == b[1..][0] == b[1] && a[2] == a[1..][1] == b[1..][1] == b[2];
  }

  lemma {:induction false} LongestFits(s: string, k: nat)
    ensures Longest(s, k) <= |s|
  {
    if k > 0 {
      LongestFits(s, k - 1);
    }
  }

  lemma BadAtHead(parts: seq<string>, k: nat, c: char, g: nat, m: nat)
    requires Parts(parts) && 1 <= g < m <= k && |parts| >= 3
    requires parts[1] + [c] == Dec(g) && Dec(m) <= parts[2]
    ensures (k > m && Bad(Pass(parts, k, c), g, m, c)) || PaysMore(parts, k, c)
  {
    var later := Pass(parts[1..], k, c);
    var last := Pass(parts[2..], k, c);
    assert parts[1..][1..] == parts[2..];
    LengthGrows(g, k);
    assert Pass(parts, k, c) == [parts[0]] + later;
    assert ([parts[0]] + later)[1..] == later;
    if Dec(k) <= parts[2] {
      PassPays(parts[1..], k, c);
      LongestFits(parts[1], k);
      assert Dec(g) <= later[0];
      LongestBounds(later[0], k - 1, g);
    } else {
      assert later == [parts[1]] + last;
      assert Dec(m) <= last[0];
    }
  }

  lemma PaysMoreBehindHit(parts: seq<string>, k: nat, c: char)
    requires Parts(parts) && |parts| > 1 && k >= 1 && Dec(k) <= parts[1] && PaysMore(parts[1..], k, c)
    ensures PaysMore(parts, k, c)
  {
    var n, later := |Dec(k)|, Pass(parts[1..], k, c);
    assert Pass(parts, k, c)[1..] == later[1..];
    JoinHead(later, n);
    JoinPrepend(parts[0] + [c], [later[0][n..]] + later[1..]);
    DueIgnoresHead(Pass(parts, k, c), later, k - 1);
  }

  lemma PaysMoreBehindMiss(parts: seq<string>, k: nat, c: char)
    requires Parts(parts) && |parts| > 1 && k >= 1 && !(Dec(k) <= parts[1]) && PaysMore(parts[1..], k, c)
    ensures PaysMore(parts, k, c)
  {
    var later := Pass(parts[1..], k, c);
    assert Pass(parts, k, c)[1..] == later;
    LongestGrows(parts[1], later[0], k - 1);
  }

  lemma {:induction false} BadPass(parts: seq<string>, k: nat, c: char, g: nat, m: nat)
    requires Parts(parts) && 1 <= g < m <= k && Bad(parts, g, m, c)
    ensures (k > m && Bad(Pass(parts, k, c), g, m, c)) || PaysMore(parts, k, c)
    decreases |parts|
  {
    if parts[1] + [c] == Dec(g) && Dec(m) <= parts[2] {
      BadAtHead(parts, k, c, g, m);
    } else {
      BadPass(parts[1..], k, c, g, m);
      var pass, later := Pass(parts, k, c), Pass(parts[1..], k, c);
      if PaysMore(parts[1..], k, c) {
        if Dec(k) <= parts[1] {
          PaysMoreBehindHit(parts, k, c);
        } else {
          PaysMoreBehindMiss(parts, k, c);
        }
      } else if Dec(k) <= parts[1] {
        assert pass[1..] == later[1..];
        BadIgnoresHead(later, pass, g, m, c);
      } else {
        assert pass[1..] == later;
      }
    }
  }

  lemma {:induction false} RenderRemovesMore(parts: seq<string>, k: nat, c: char, g: nat, m: nat, literals: seq<string>)
    requires Parts(parts) && c != '$' && 1 <= g < m <= k <= |literals| && Bad(parts, g, m, c)
    requires forall l :: l in literals ==> l == [c]
    ensures |Render(Join(parts), literals, k)| + Due(parts, k) < |Join(parts)|
    decreases k
  {
    assert literals[k - 1] in literals;
    PassIsReplacement(parts, k, c);
    PassPays(parts, k, c);
    BadPass(parts, k, c, g, m);
    if k > m && Bad(Pass(parts, k, c), g, m, c) {
      RenderRemovesMore(Pass(parts, k, c), k - 1, c, g, m, literals);
    } else {
      RenderRemovesWhatIsDue(Pass(parts, k, c), k - 1, c, literals);
    }
  }

  // Templates as parts.

  function PartsOf(ts: seq<Token>): (r: seq<string>)
    ensures r != []
  {
    if ts == [] then [""]
    else
      var rest := PartsOf(ts[1..]);
      match ts[0]
      case Ch(c) => if c == '$' then [""] + rest else [[c] + rest[0]] + rest[1..]
      case Hole(k) => [""] + ([Dec(k) + rest[0]] + rest[1..])
  }

  function HoleDigits(ts: seq<Token>): nat {
    if ts == [] then 0 else (if ts[0].Hole? then |Dec(ts[0].index)| else 0) + HoleDigits(ts[1..])
  }

  lemma {:induction false} PartsOfJoins(ts: seq<Token>)
    ensures Parts(PartsOf(ts)) && Join(PartsOf(ts)) == Flatten(ts)
  {
    if ts != [] {
      PartsOfJoins(ts[1..]);
      var rest := PartsOf(ts[1..]);
      match ts[0]
      case Ch(c) =>
        if c == '$' {
          assert ([""] + rest)[1..] == rest;
        } else {
          JoinPrepend([c], rest);
        }
      case Hole(k) =>
        DecIsDollarFree(k);
        JoinPrepend(Dec(k), rest);
        var whole := [Dec(k) + rest[0]] + rest[1..];
        assert ([""] + whole)[1..] == whole;
    }
  }

  lemma {:induction false} HolesAreDue(ts: seq<Token>, n: nat)
    requires WellFormed(ts, n)
    ensures Due(PartsOf(ts), n) >= HoleDigits(ts)
  {
    if ts != [] {
      HolesAreDue(ts[1..], n);
      var rest := PartsOf(ts[1..]);
      match ts[0]
      case Ch(c) =>
        if c == '$' {
          assert ([""] + rest)[1..] == rest;
        } else {
          DueIgnoresHead(PartsOf(ts), rest, n);
        }
      case Hole(k) =>
        var whole := [Dec(k) + rest[0]] + rest[1..];
        assert ([""] + whole)[1..] == whole;
        LongestBounds(whole[0], n, k);
        DueIgnoresHead(whole, rest, n);
    }
  }

  lemma {:induction false} SubstituteLength(ts: seq<Token>, literals: seq<string>)
    requires WellFormed(ts, |literals|) && forall l :: l in literals ==> |l| == 1
    ensures |Substitute(ts, literals)| + HoleDigits(ts) == |Flatten(ts)|
  {
    if ts != [] {
      SubstituteLength(ts[1..], literals);
      if ts[0].Hole? {
        assert literals[ts[0].index - 1] in literals;
      }
    }
  }

  lemma {:induction false} BadFromTemplate(ts: seq<Token>, i: nat, g: nat, c: char)
    requires i + 1 < |ts| && IsDollarLike(ts[i]) && ts[i + 1].Hole?
    requires (if ts[i].Hole? then Dec(ts[i].index) else "") + [c] == Dec(g)
    ensures Bad(PartsOf(ts), g, ts[i + 1].index, c)
    decreases i
  {
    var rest := PartsOf(ts[1..]);
    if i == 0 {
      assert rest[0] == "" && Dec(ts[1].index) <= rest[1];
    } else {
      BadFromTemplate(ts[1..], i - 1, g, c);
      match ts[0]
      case Ch(d) =>
        if d == '$' {
          assert ([""] + rest)[1..] == rest;
        } else {
          BadIgnoresHead(rest, PartsOf(ts), g, ts[i + 1].index, c);
        }
      case Hole(k) =>
        var whole := [Dec(k) + rest[0]] + rest[1..];
        assert ([""] + whole)[1..] == whole;
        BadIgnoresHead(rest, whole, g, ts[i + 1].index, c);
    }
  }

  /** An unsafe template goes wrong with every argument 0, or with every argument 1. */
  lemma UnsafeIsNot(ts: seq<Token>, n: nat) returns (literals: seq<string>)
    requires WellFormed(ts, n) && !Safe(ts)
    ensures |literals| == n && (forall l :: l in literals ==> l == "0" || l == "1")
    ensures |Render(Flatten(ts), literals, n)| < |Substitute(ts, literals)|
  {
    var i :| 0 <= i < |ts| - 1 && !SafeNeighbours(ts[i], ts[i + 1]);
    var g := if ts[i].Hole? then 10 * ts[i].index else 1;
    var c := if ts[i].Hole? then '0' else '1';
    literals := seq(n, _ => [c]);
    BadFromTemplate(ts, i, g, c);
    PartsOfJoins(ts);
    RenderRemovesMore(PartsOf(ts), n, c, g, ts[i + 1].index, literals);
    HolesAreDue(ts, n);
    SubstituteLength(ts, literals);
  }

  /** Main result: one-by-one replacement is simultaneous substitution for all literals
      without a '$', the first one excepted, exactly when the template is safe. */
  lemma RendersExactlyWhenSafe(ts: seq<Token>, n: nat)
    requires WellFormed(ts, n)
    ensures Safe(ts) <==>
      forall literals: seq<string> :: |literals| == n && LaterDollarFree(literals) ==>
        Render(Flatten(ts), literals, n) == Substitute(ts, literals)
  {
    if Safe(ts) {
      forall literals: seq<string> | |literals| == n && LaterDollarFree(literals)
        ensures Render(Flatten(ts), literals, n) == Substitute(ts, literals)
      {
        SafeIsSubstituted(ts, literals);
      }
    } else {
      var literals := UnsafeIsNot(ts, n);
      assert forall i :: 0 <= i < n ==> literals[i] in literals;
      assert LaterDollarFree(literals);
    }
  }

  // ----- literals that hold a '$'

  /** The text with `inserted` for every placeholder above `k`. */
  function Mixed(ts: seq<Token>, k: nat, inserted: string): string {
    if ts == [] then ""
    else (if ts[0].Hole? && ts[0].index > k then inserted else Written(ts[0])) + Mixed(ts[1..], k, inserted)
  }

  /** That text behind the replacement of `$k` by `to`, which turns `inserted` into `changed`. */
  function Passed(ts: seq<Token>, k: nat, to: string, changed: string): string {
    if ts == [] then ""
    else
      (if ts[0].Hole? && ts[0].index > k then changed else if ts[0] == Hole(k) then to else Written(ts[0]))
      + Passed(ts[1..], k, to, changed)
  }

  ghost predicate Turns(inserted: string, changed: string, k: nat, to: string) {
    forall rest :: ReplaceAll(inserted + rest, Placeholder(k), to) == changed + ReplaceAll(rest, Placeholder(k), to)
  }

  predicate BeginsPlainly(s: string) {
    s != "" && !IsDigit(s[0])
  }

  /** After a '$' token the text goes on with no digit. */
  lemma NoDigitNext(ts: seq<Token>, n: nat, k: nat, inserted: string)
    requires WellFormed(ts, n) && ts != [] && IsDollarLike(ts[0]) && BeginsPlainly(inserted)
    ensures var rest := Mixed(ts[1..], k, inserted); rest != "" ==> !IsDigit(rest[0])
  {
  }

  lemma NoMatchBefore(own: string, rest: string, k: nat)
    requires own == "" || exists j: nat :: j < k && own == Dec(j)
    requires own != Dec(k) && (rest != "" ==> !IsDigit(rest[0]))
    ensures !(Dec(k) <= own + rest)
  {
    DecValue(k);
    PrefixAt(Dec(k), own + rest, |own|);
    PrefixSplits(Dec(k), own, rest);
    if own != "" && Dec(k) <= own {
      var j: nat :| j < k && own == Dec(j);
      LengthGrows(j, k);
    }
  }

  lemma {:induction false} PassOverInserted(ts: seq<Token>, n: nat, k: nat, to: string, inserted: string, changed: string)
    requires WellFormed(ts, n) && k >= 1 && BeginsPlainly(inserted) && Turns(inserted, changed, k, to)
    ensures ReplaceAll(Mixed(ts, k, inserted), Placeholder(k), to) == Passed(ts, k, to, changed)
  {
    if ts != [] {
      var rest := Mixed(ts[1..], k, inserted);
      PassOverInserted(ts[1..], n, k, to, inserted, changed);
      if ts[0] == Hole(k) {
        MatchHere(rest, Placeholder(k), to);
      } else if IsDollarLike(ts[0]) && (ts[0].Hole? ==> ts[0].index < k) {
        KeptToken(ts, n, k, to, inserted);
      } else if ts[0].Ch? {
        ReplaceSkips([ts[0].c], rest, Placeholder(k), to);
      }
    }
  }

  lemma KeptToken(ts: seq<Token>, n: nat, k: nat, to: string, inserted: string)
    requires WellFormed(ts, n) && k >= 1 && BeginsPlainly(inserted)
    requires ts != [] && IsDollarLike(ts[0]) && (ts[0].Hole? ==> ts[0].index < k)
    ensures var rest := Mixed(ts[1..], k, inserted);
      ReplaceAll(Written(ts[0]) + rest, Placeholder(k), to) == Written(ts[0]) + ReplaceAll(rest, Placeholder(k), to)
  {
    var own, rest := if ts[0].Hole? then Dec(ts[0].index) else "", Mixed(ts[1..], k, inserted);
    NoDigitNext(ts, n, k, inserted);
    DecIsDollarFree(k);
    if ts[0].Hole? {
      DecIsDollarFree(ts[0].index);
      DecValue(k);
      DecValue(ts[0].index);
    }
    NoMatchBefore(own, rest, k);
    DollarKept(own, rest, k, to);
    assert Written(ts[0]) == "$" + own;
  }

  /** Every placeholder is `$1`. */
  predicate OnlyFirst(ts: seq<Token>) {
    forall i :: 0 <= i < |ts| && ts[i].Hole? ==> ts[i].index == 1
  }

  lemma {:induction false} NothingAbove(ts: seq<Token>, k: nat, inserted: string)
    requires forall i :: 0 <= i < |ts| && ts[i].Hole? ==> ts[i].index <= k
    ensures Mixed(ts, k, inserted) == Flatten(ts)
  {
    if ts != [] {
      NothingAbove(ts[1..], k, inserted);
    }
  }

  lemma {:induction false} FirstIsFilled(ts: seq<Token>, k: nat, literals: seq<string>)
    requires WellFormed(ts, |literals|) && OnlyFirst(ts) && 1 <= k <= |literals|
    ensures Passed(ts, k, literals[k - 1], "'") == if k == 1 then Substitute(ts, literals) else Flatten(ts)
  {
    if ts != [] {
      FirstIsFilled(ts[1..], k, literals);
      if ts[0].Hole? {
        assert ts[0] == Hole(1);
      }
    }
  }

  lemma {:induction false} OnlyFirstIsSubstituted(ts: seq<Token>, literals: seq<string>, k: nat)
    requires WellFormed(ts, |literals|) && OnlyFirst(ts) && 1 <= k <= |literals|
    ensures Render(Flatten(ts), literals, k) == Substitute(ts, literals)
    decreases k
  {
    var to := literals[k - 1];
    forall rest ensures ReplaceAll("'" + rest, Placeholder(k), to) == "'" + ReplaceAll(rest, Placeholder(k), to) {
      ReplaceSkips("'", rest, Placeholder(k), to);
    }
    PassOverInserted(ts, |literals|, k, to, "'", "'");
    NothingAbove(ts, k, "'");
    FirstIsFilled(ts, k, literals);
    if k > 1 {
      OnlyFirstIsSubstituted(ts, literals, k - 1);
    }
  }

  const FIRST_QUOTED := "'$1'"  // the literal of the JSON string $1

  /** The number 0 for `$1`, and the string `$1` for every other placeholder. */
  function Quoting(n: nat): (literals: seq<string>)
    ensures |literals| == n
  {
    seq(n, i => if i == 0 then "0" else FIRST_QUOTED)
  }

  lemma FirstQuotedTurns(k: nat, to: string)
    requires k >= 1
    ensures Turns(FIRST_QUOTED, if k == 1 then "'" + to + "'" else FIRST_QUOTED, k, to)
  {
    forall rest
      ensures ReplaceAll(FIRST_QUOTED + rest, Placeholder(k), to)
           == (if k == 1 then "'" + to + "'" else FIRST_QUOTED) + ReplaceAll(rest, Placeholder(k), to)
    {
      FirstQuotedIsRead(rest, k, to);
    }
  }

  lemma FirstQuotedIsRead(rest: string, k: nat, to: string)
    requires k >= 1
    ensures ReplaceAll(FIRST_QUOTED + rest, Placeholder(k), to)
         == (if k == 1 then "'" + to + "'" else FIRST_QUOTED) + ReplaceAll(rest, Placeholder(k), to)
  {
    hide ReplaceAll, Dec;
    var tail, later := "'" + rest, ReplaceAll(rest, Placeholder(k), to);
    FirstQuotedSplits(rest);
    ReplaceSkips("'", "$1" + tail, Placeholder(k), to);
    ReplaceSkips("'", rest, Placeholder(k), to);
    if k == 1 {
      FirstIsReplaced(tail, to);
      Assoc("'", to, "'" + later);
      Assoc("'" + to, "'", later);
    } else {
      FirstIsKept(tail, k, to);
      FirstQuotedSplits(later);
    }
  }

  lemma FirstQuotedSplits(rest: string)
    ensures FIRST_QUOTED + rest == "'" + ("$1" + ("'" + rest))
  {
  }

  lemma FirstIsReplaced(tail: string, to: string)
    ensures ReplaceAll("$1" + tail, Placeholder(1), to) == to + ReplaceAll(tail, Placeholder(1), to)
  {
    assert Placeholder(1) == "$1";
    MatchHere(tail, Placeholder(1), to);
  }

  lemma FirstIsKept(tail: string, k: nat, to: string)
    requires k > 1 && BeginsPlainly(tail)
    ensures ReplaceAll("$1" + tail, Placeholder(k), to) == "$1" + ReplaceAll(tail, Placeholder(k), to)
  {
    DecValue(k);
    DecValue(1);
    assert "1" == Dec(1) != Dec(k);
    NoMatchBefore("1", tail, k);
    DollarKept("1", tail, k, to);
    assert "$" + "1" + tail == "$1" + tail;
  }

  lemma {:induction false} PassedIsMixed(ts: seq<Token>, k: nat)
    requires k >= 2
    ensures Passed(ts, k, FIRST_QUOTED, FIRST_QUOTED) == Mixed(ts, k - 1, FIRST_QUOTED)
  {
    if ts != [] {
      PassedIsMixed(ts[1..], k);
    }
  }

  /** With these literals every inserted `$1` is replaced in its turn. */
  lemma {:induction false} QuotingIsRead(ts: seq<Token>, n: nat, k: nat)
    requires WellFormed(ts, n) && 1 <= k <= n
    ensures Render(Mixed(ts, k, FIRST_QUOTED), Quoting(n), k) == Passed(ts, 1, "0", "'0'")
    decreases k
  {
    hide Mixed, Passed, ReplaceAll, Turns, WellFormed;
    QuotingPass(ts, n, k);
    if k > 1 {
      QuotingIsRead(ts, n, k - 1);
    }
  }

  lemma QuotingPass(ts: seq<Token>, n: nat, k: nat)
    requires WellFormed(ts, n) && 1 <= k <= n
    ensures ReplaceAll(Mixed(ts, k, FIRST_QUOTED), Placeholder(k), Quoting(n)[k - 1])
         == if k == 1 then Passed(ts, 1, "0", "'0'") else Mixed(ts, k - 1, FIRST_QUOTED)
  {
    hide Mixed, Passed, ReplaceAll, Turns, WellFormed;
    var to := Quoting(n)[k - 1];
    FirstQuotedTurns(k, to);
    if k == 1 {
      assert "'" + "0" + "'" == "'0'";
      PassOverInserted(ts, n, 1, "0", FIRST_QUOTED, "'0'");
    } else {
      PassOverInserted(ts, n, k, to, FIRST_QUOTED, FIRST_QUOTED);
      PassedIsMixed(ts, k);
    }
  }

  lemma {:induction false} PassedIsShorter(ts: seq<Token>, n: nat)
    requires WellFormed(ts, n)
    ensures |Passed(ts, 1, "0", "'0'")| <= |Substitute(ts, Quoting(n))|
    ensures !OnlyFirst(ts) ==> |Passed(ts, 1, "0", "'0'")| < |Substitute(ts, Quoting(n))|
  {
    if ts != [] {
      PassedIsShorter(ts[1..], n);
      assert OnlyFirst(ts[1..]) && (ts[0].Hole? ==> ts[0].index == 1) ==> OnlyFirst(ts) by {
        assert forall i :: 1 <= i < |ts| ==> ts[i] == ts[1..][i - 1];
      }
    }
  }

  /** A template with another placeholder than `$1` goes wrong with these literals, safe or not. */
  lemma InsertedIsReplaced(ts: seq<Token>, n: nat)
    requires WellFormed(ts, n) && !OnlyFirst(ts)
    ensures |Render(Flatten(ts), Quoting(n), n)| < |Substitute(ts, Quoting(n))|
  {
    NothingAbove(ts, n, FIRST_QUOTED);
    QuotingIsRead(ts, n, n);
    PassedIsShorter(ts, n);
  }

  /** Main result: one-by-one replacement is simultaneous substitution for all literals whatever
      exactly when there is no placeholder but `$1`. */
  lemma RendersAllLiteralsExactlyWhen(ts: seq<Token>, n: nat)
    requires WellFormed(ts, n)
    ensures OnlyFirst(ts) <==>
      forall literals: seq<string> :: |literals| == n ==> Render(Flatten(ts), literals, n) == Substitute(ts, literals)
  {
    if OnlyFirst(ts) {
      forall literals: seq<string> | |literals| == n
        ensures Render(Flatten(ts), literals, n) == Substitute(ts, literals)
      {
        if n == 0 {
          PartlyEnds(ts, literals);
        } else {
          OnlyFirstIsSubstituted(ts, literals, n);
        }
      }
    } else {
      InsertedIsReplaced(ts, n);
    }
  }

  /** So `$1$2` goes wrong, although it is safe, when the second argument is the string `$1`. */
  lemma DollarLiteralIsReplaced()
    ensures var ts := [Hole(1), Hole(2)];
      && WellFormed(ts, 2) && Safe(ts) && Flatten(ts) == "$1$2"
      && Render("$1$2", ["0", "'$1'"], 2) == "0'0'" && Substitute(ts, ["0", "'$1'"]) == "0'$1'"
  {
    var ts := [Hole(1), Hole(2)];
    hide ReplaceAll, Render;
    assert Quoting(2) == ["0", "'$1'"];
    assert ts[1..] == [Hole(2)] && ts[1..][1..] == [];
    assert Flatten(ts) == "$1$2" by { assert Written(Hole(1)) == "$1" && Written(Hole(2)) == "$2"; }
    assert Passed(ts, 1, "0", "'0'") == "0" + ("'0'" + "") == "0'0'";
    NothingAbove(ts, 2, FIRST_QUOTED);
    QuotingIsRead(ts, 2, 2);
  }

  // ----- every text of the promised kind is a template

  function DigitRun(s: string): (r: nat)
    ensures r <= |s| && AllDigits(s[..r]) && (r < |s| ==> !IsDigit(s[r]))
  {
    if s == "" || !IsDigit(s[0]) then 0
    else
      var n := DigitRun(s[1..]);
      assert s[..n + 1] == [s[0]] + s[1..][..n];
      n + 1
  }

  /** Every '$' is followed by no digit, or by a digit run that is a canonical index in 1..n. */
  predicate CanonicalText(s: string, n: nat)
    decreases |s|
  {
    s != "" ==>
      if s[0] != '$' then CanonicalText(s[1..], n)
      else
        var run := DigitRun(s[1..]);
        && (run > 0 ==> s[1] != '0' && 1 <= Value(s[1..][..run]) <= n)
        && CanonicalText(s[1..][run..], n)
  }

  function Tokenize(s: string): seq<Token>
    decreases |s|
  {
    if s == "" then []
    else if s[0] != '$' then [Ch(s[0])] + Tokenize(s[1..])
    else
      var run := DigitRun(s[1..]);
      [if run == 0 then Ch('$') else Hole(Value(s[1..][..run]))] + Tokenize(s[1..][run..])
  }

  lemma DollarTokenIsWritten(s: string, run: nat)
    requires s != "" && s[0] == '$' && run == DigitRun(s[1..])
    requires run > 0 ==> s[1] != '0'
    ensures Written(if run == 0 then Ch('$') else Hole(Value(s[1..][..run]))) + s[1..][run..] == s
  {
    var digits := s[1..][..run];
    assert s == "$" + digits + s[1..][run..];
    if run > 0 {
      CanonicalIsDec(digits);
    }
  }

  lemma FrontKeepsShape(t: Token, ts: seq<Token>, n: nat)
    requires WellFormed(ts, n) && (t.Hole? ==> 1 <= t.index <= n)
    requires IsDollarLike(t) && ts != [] ==> !IsDigitChar(ts[0])
    ensures WellFormed([t] + ts, n)
  {
    assert forall i :: 1 <= i < |ts| + 1 ==> ([t] + ts)[i] == ts[i - 1];
  }

  lemma EmptyIsTemplate(n: nat)
    ensures WellFormed([], n)
  {
  }

  lemma {:induction false} CanonicalTextIsTemplate(s: string, n: nat)
    requires CanonicalText(s, n)
    ensures Flatten(Tokenize(s)) == s && WellFormed(Tokenize(s), n)
    ensures s != "" && !IsDigit(s[0]) ==> !IsDigitChar(Tokenize(s)[0])
    decreases |s|
  {
    hide WellFormed, Value, AllDigits;
    if s == "" {
      EmptyIsTemplate(n);
    } else {
      if s[0] != '$' {
        CanonicalTextIsTemplate(s[1..], n);
        FrontKeepsShape(Ch(s[0]), Tokenize(s[1..]), n);
      } else {
        var run := DigitRun(s[1..]);
        var rest := s[1..][run..];
        CanonicalTextIsTemplate(rest, n);
        DollarTokenIsWritten(s, run);
        FrontKeepsShape(Tokenize(s)[0], Tokenize(rest), n);
      }
    }
  }
}
