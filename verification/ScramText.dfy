/** The text layer of SCRAM: name escaping, attribute lists and numbers, as scram.go reads and
    writes them. */
module ScramText {
  import opened Wrappers
  import opened Messages
  import opened Decimal
  import opened TextSplit

  // ----- names

  function EscapeChar(ch: char): string {
    if ch == '=' then "=3D" else if ch == ',' then "=2C" else [ch]
  }

  /** strings.NewReplacer("=", "=3D", ",", "=2C") */
  function Escape(name: string): string {
    if name == "" then "" else EscapeChar(name[0]) + Escape(name[1..])
  }

  /** What section 5.1 of RFC 5802 asks of a server: any other use of '=' is refused. */
  function Unescape(s: string): Option<string>
    decreases |s|
  {
    if s == "" then Some("")
    else if s[0] != '=' then Cons(s[0], Unescape(s[1..]))
    else if |s| >= 3 && s[..3] == "=3D" then Cons('=', Unescape(s[3..]))
    else if |s| >= 3 && s[..3] == "=2C" then Cons(',', Unescape(s[3..]))
    else None
  }

  function Cons(ch: char, rest: Option<string>): Option<string> {
    if rest.None? then None else Some([ch] + rest.value)
  }

  /** Escaping can be undone, and leaves no comma. */
  lemma {:induction false} EscapeRoundTrip(name: string)
    ensures Unescape(Escape(name)) == Some(name) && ',' !in Escape(name)
    ensures Escape(name) == "" <==> name == ""
  {
    if name != "" {
      EscapeRoundTrip(name[1..]);
      var head, rest := EscapeChar(name[0]), Escape(name[1..]);
      assert [name[0]] + name[1..] == name;
      if |head| == 3 {
        assert (head + rest)[..3] == head && (head + rest)[3..] == rest;
      } else {
        assert (head + rest)[1..] == rest;
      }
    }
  }

  // ----- attributes

  /** Parts of less than three bytes, or without a name, are dropped; later ones win. */
  function AddPart(attrs: map<string, string>, part: string): map<string, string> {
    var i := IndexOf(part, '=');
    if |part| < 3 || i == 0 || i == |part| then attrs else attrs[part[..i] := part[i + 1..]]
  }

  function AddParts(attrs: map<string, string>, parts: seq<string>): map<string, string>
    decreases |parts|
  {
    if parts == [] then attrs else AddParts(AddPart(attrs, parts[0]), parts[1..])
  }

  function Attrs(message: string): map<string, string> {
    AddParts(map[], Split(message, ','))
  }

  /** A Go map gives the empty string for a missing key. */
  function Get(attrs: map<string, string>, name: string): string {
    if name in attrs then attrs[name] else ""
  }

  method ParseScramAttrs(message: string) returns (attrs: map<string, string>)
    ensures attrs == Attrs(message)
  {
    attrs := map[];
    if message == "" {
      return;
    }
    var parts := Split(message, ',');
    var n := 0;
    assert parts[0..] == parts;
    while n < |parts|
      invariant n <= |parts|
      invariant AddParts(attrs, parts[n..]) == Attrs(message)
    {
      var part := parts[n];
      assert parts[n..][1..] == parts[n + 1..];
      n := n + 1;
      if |part| < 3 {
        continue;
      }
      var i := IndexOf(part, '=');
      if 0 < i < |part| {
        attrs := attrs[part[..i] := part[i + 1..]];
      }
    }
  }

  /** `k=value` */
  function Attr(k: char, value: string): string {
    [k, '='] + value
  }

  lemma AddAttr(attrs: map<string, string>, k: char, value: string)
    requires k != '='
    ensures AddPart(attrs, Attr(k, value)) == if value == "" then attrs else attrs[[k] := value]
  {
    var part := Attr(k, value);
    assert part[0] == k && part[1] == '=';
    var i := IndexOf(part, '=');
    assert i == 1;
    assert part[..1] == [k] && part[2..] == value;
  }

  lemma OneAttr(k: char, x: string)
    requires k != '=' && k != ',' && ',' !in x
    ensures Get(Attrs(Attr(k, x)), [k]) == x
  {
    SplitNothing(Attr(k, x), ',');
    AddAttr(map[], k, x);
    var parts := [Attr(k, x)];
    assert parts[1..] == [];
    assert AddParts(map[], parts) == AddParts(AddPart(map[], Attr(k, x)), parts[1..]);
  }

  /** Two attributes of different names are both found, even if empty. */
  lemma TwoAttrs(k: char, x: string, l: char, y: string)
    requires k != '=' && l != '=' && k != l && k != ',' && ',' !in x && ',' !in y && l != ','
    ensures var attrs := Attrs(Attr(k, x) + "," + Attr(l, y));
      Get(attrs, [k]) == x && Get(attrs, [l]) == y
  {
    SplitFirst(Attr(k, x), Attr(l, y), ',');
    SplitNothing(Attr(l, y), ',');
    AddAttr(map[], k, x);
    var first := AddPart(map[], Attr(k, x));
    AddAttr(first, l, y);
    var parts := [Attr(k, x), Attr(l, y)];
    assert parts[1..] == [Attr(l, y)] && parts[1..][1..] == [];
    assert AddParts(map[], parts) == AddParts(first, parts[1..]) == AddPart(first, Attr(l, y));
    assert [k][0] == k && [l][0] == l;
  }

  lemma ThreeAttrs(k: char, x: string, l: char, y: string, m: char, z: string)
    requires k != '=' && l != '=' && m != '=' && k != l && k != m && l != m
    requires k != ',' && l != ',' && m != ',' && ',' !in x && ',' !in y && ',' !in z
    ensures var attrs := Attrs(Attr(k, x) + "," + (Attr(l, y) + "," + Attr(m, z)));
      Get(attrs, [k]) == x && Get(attrs, [l]) == y && Get(attrs, [m]) == z
  {
    SplitFirst(Attr(k, x), Attr(l, y) + "," + Attr(m, z), ',');
    SplitFirst(Attr(l, y), Attr(m, z), ',');
    SplitNothing(Attr(m, z), ',');
    var first := AddPart(map[], Attr(k, x));
    var second := AddPart(first, Attr(l, y));
    AddAttr(map[], k, x);
    AddAttr(first, l, y);
    AddAttr(second, m, z);
    ThreeParts(Attr(k, x), Attr(l, y), Attr(m, z));
    assert [k][0] == k && [l][0] == l && [m][0] == m;
  }

  lemma ThreeParts(a: string, b: string, c: string)
    ensures AddParts(map[], [a] + ([b] + [c])) == AddPart(AddPart(AddPart(map[], a), b), c)
  {
    var parts := [a] + ([b] + [c]);
    assert parts[0] == a && parts[1..] == [b] + [c];
    assert ([b] + [c])[1..] == [c] && [c][1..] == [];
    var first := AddPart(map[], a);
    var second := AddPart(first, b);
    assert AddParts(second, [c]) == AddPart(second, c);
    assert AddParts(first, [b] + [c]) == AddParts(second, [c]);
  }

  lemma {:induction false} AddPartsConcat(attrs: map<string, string>, a: seq<string>, b: seq<string>)
    ensures AddParts(attrs, a + b) == AddParts(AddParts(attrs, a), b)
    decreases |a|
  {
    if a == [] {
      assert a + b == b;
    } else {
      assert (a + b)[1..] == a[1..] + b;
      AddPartsConcat(AddPart(attrs, a[0]), a[1..], b);
    }
  }

  /** A part that is too short or has no name changes nothing, wherever it stands in front. */
  lemma PartIsIgnored(part: string, rest: string)
    requires ',' !in part && (|part| < 3 || '=' !in part || part[0] == '=')
    ensures Attrs(part + "," + rest) == Attrs(rest)
  {
    SplitFirst(part, rest, ',');
    assert ([part] + Split(rest, ','))[1..] == Split(rest, ',');
    assert IndexOf(part, '=') == 0 || IndexOf(part, '=') == |part| || |part| < 3;
  }

  /** Of two values of a name the later one counts, unless it is empty. */
  lemma LaterValueWins(front: string, k: char, y: string)
    requires k != '=' && k != ',' && ',' !in y
    ensures Get(Attrs(front + "," + Attr(k, y)), [k]) == if y == "" then Get(Attrs(front), [k]) else y
  {
    SplitLast(front, Attr(k, y), ',');
    AddPartsConcat(map[], Split(front, ','), [Attr(k, y)]);
    var attrs := Attrs(front);
    AddAttr(attrs, k, y);
    assert [Attr(k, y)][1..] == [];
    assert AddParts(attrs, [Attr(k, y)]) == AddPart(attrs, Attr(k, y));
  }

  // ----- the iteration count

  function Digits(text: string, value: int): Option<int>
    decreases |text|
  {
    if text == "" then Some(value)
    else if !('0' <= text[0] <= '9') then None
    else Digits(text[1..], ToInt64(value * 10 + (text[0] as int - '0' as int)))
  }

  method ParseInt(text: string) returns (r: Option<int>)
    ensures r == Digits(text, 0)
  {
    var value := 0;
    var i := 0;
    assert text[0..] == text;
    while i < |text|
      invariant i <= |text|
      invariant Digits(text, 0) == Digits(text[i..], value)
    {
      var ch := text[i];
      assert text[i..][1..] == text[i + 1..];
      if ch < '0' || ch > '9' {
        return None;
      }
      value := ToInt64(value * 10 + (ch as int - '0' as int));
      i := i + 1;
    }
    return Some(value);
  }

  lemma {:induction false} DigitsSnoc(s: string, ch: char, value: int)
    ensures Digits(s + [ch], value) ==
      var front := Digits(s, value);
      if front.None? || !IsDigit(ch) then None else Some(ToInt64(front.value * 10 + (ch as int - '0' as int)))
    decreases |s|
  {
    if s == "" {
      assert s + [ch] == [ch] && [ch][1..] == "";
    } else {
      assert (s + [ch])[1..] == s[1..] + [ch];
      if IsDigit(s[0]) {
        DigitsSnoc(s[1..], ch, ToInt64(value * 10 + (s[0] as int - '0' as int)));
      }
    }
  }

  lemma {:induction false} DigitsWrap(s: string)
    requires AllDigits(s)
    ensures Digits(s, 0) == Some(ToInt64(Value(s)))
  {
    if s != "" {
      var front, ch := s[..|s| - 1], s[|s| - 1];
      assert s == front + [ch];
      DigitsWrap(front);
      DigitsSnoc(front, ch, 0);
      WrapOnce(Value(front), ch as int - '0' as int);
    }
  }

  /** Nothing but digits is a number. */
  lemma {:induction false} DigitsOnly(s: string, value: int)
    ensures Digits(s, value).Some? <==> forall k :: 0 <= k < |s| ==> '0' <= s[k] <= '9'
    decreases |s|
  {
    if s != "" && '0' <= s[0] <= '9' {
      DigitsOnly(s[1..], ToInt64(value * 10 + (s[0] as int - '0' as int)));
      assert forall k :: 1 <= k < |s| ==> s[k] == s[1..][k - 1];
      assert forall k :: 0 <= k < |s| - 1 ==> s[1..][k] == s[k + 1];
    }
  }

  lemma WrapOnce(x: int, d: int)
    ensures ToInt64(ToInt64(x) * 10 + d) == ToInt64(x * 10 + d)
  {
    var k := if ToInt64(x) < 0 then x / UINT64_LIMIT + 1 else x / UINT64_LIMIT;
    assert ToInt64(x) == x - UINT64_LIMIT * k;
    Shifted(x * 10 + d, 10 * k);
  }

  lemma Shifted(y: int, k: int)
    ensures (y - UINT64_LIMIT * k) % UINT64_LIMIT == y % UINT64_LIMIT
  {
  }

  /** parseInt accepts digits only; it returns a number that was written in decimal exactly when
      it is below 2^63, and some other number if it is not. */
  lemma {:induction false} ParseIntOfDec(n: nat)
    ensures Digits(Dec(n), 0) == Some(ToInt64(n))
    ensures Digits(Dec(n), 0) == Some(n) <==> n < UINT64_LIMIT / 2
  {
    DecValue(n);
    DigitsWrap(Dec(n));
  }
}
