/** Cutting text at a separator, as Go's strings package does it. */
module TextSplit {

  /** strings.Split */
  function Split(s: string, sep: char): (r: seq<string>)
    ensures r != []
  {
    if s == "" then [""]
    else
      var rest := Split(s[1..], sep);
      if s[0] == sep then [""] + rest else [[s[0]] + rest[0]] + rest[1..]
  }

  lemma {:induction false} SplitNothing(s: string, sep: char)
    requires sep !in s
    ensures Split(s, sep) == [s]
  {
    if s != "" {
      SplitNothing(s[1..], sep);
      assert [s[0]] + s[1..] == s;
    }
  }

  lemma {:induction false} SplitFirst(s: string, rest: string, sep: char)
    requires sep !in s
    ensures Split(s + [sep] + rest, sep) == [s] + Split(rest, sep)
  {
    if s == "" {
      assert (s + [sep] + rest)[1..] == rest;
    } else {
      assert (s + [sep] + rest)[1..] == s[1..] + [sep] + rest;
      SplitFirst(s[1..], rest, sep);
      assert [s[0]] + s[1..] == s;
    }
  }

  /** strings.Index, with the length for not found. */
  function IndexOf(s: string, ch: char): (i: nat)
    ensures i <= |s| && (i < |s| ==> s[i] == ch) && forall k :: 0 <= k < i ==> s[k] != ch
  {
    if s == "" || s[0] == ch then 0 else 1 + IndexOf(s[1..], ch)
  }

  lemma {:induction false} SplitLast(s: string, x: string, sep: char)
    requires sep !in x
    ensures Split(s + [sep] + x, sep) == Split(s, sep) + [x]
  {
    var whole := s + [sep] + x;
    if s == "" {
      assert whole[1..] == x;
      SplitNothing(x, sep);
    } else {
      assert whole[1..] == s[1..] + [sep] + x;
      SplitLast(s[1..], x, sep);
    }
  }

  lemma {:induction false} SplitParts(s: string, sep: char)
    ensures forall k :: 0 <= k < |Split(s, sep)| ==> sep !in Split(s, sep)[k]
  {
    if s != "" {
      SplitParts(s[1..], sep);
    }
  }

  /** The first part, and what is behind the separator that ends it. */
  lemma SplitAtIndex(s: string, sep: char)
    ensures var i := IndexOf(s, sep);
      Split(s, sep) == if i < |s| then [s[..i]] + Split(s[i + 1..], sep) else [s]
  {
    var i := IndexOf(s, sep);
    if i < |s| {
      assert s == s[..i] + [sep] + s[i + 1..];
      SplitFirst(s[..i], s[i + 1..], sep);
    } else {
      SplitNothing(s, sep);
    }
  }
}
