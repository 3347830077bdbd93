/** The paths that a navigation tree is built from: schemaPathsForNavigation of
    metadata_shaping.cpp, and why duplicates and parent expansion do not change the tree. */
module SchemaNavigation {
  import opened SchemaPaths
  import opened SchemaForest
  import opened SchemaRows

  // ----- paths for navigation

  /** What a list of names has to say, normalized; with expansion, each name with its parents. */
  function Candidates(names: seq<string>, expand: bool): seq<string> {
    if names == [] then []
    else
      var n := |names| - 1;
      Candidates(names[..n], expand) + Candidate(names[n], expand)
  }

  function Candidate(name: string, expand: bool): seq<string> {
    var segments := Segments(name);
    if expand then Chain(segments) else if segments == [] then [] else [Join(segments)]
  }

  /** The first occurrences. */
  function Once(xs: seq<string>): seq<string> {
    if xs == [] then []
    else
      var n := |xs| - 1;
      AppendNew(Once(xs[..n]), xs[n])
  }

  function AppendNew(before: seq<string>, x: string): seq<string> {
    if x in before then before else before + [x]
  }

  lemma OnceSnoc(xs: seq<string>, x: string)
    ensures Once(xs + [x]) == AppendNew(Once(xs), x)
  {
    assert (xs + [x])[..|xs|] == xs;
  }

  lemma {:induction false} OnceKeepsAll(xs: seq<string>, x: string)
    ensures x in Once(xs) <==> x in xs
  {
    if xs != [] {
      var n := |xs| - 1;
      assert xs == xs[..n] + [xs[n]];
      OnceKeepsAll(xs[..n], x);
      OnceKeepsAll(xs[..n], xs[n]);
    }
  }

  lemma CandidatesSnoc(names: seq<string>, name: string, expand: bool)
    ensures Candidates(names + [name], expand) == Candidates(names, expand) + Candidate(name, expand)
  {
    assert (names + [name])[..|names|] == names;
  }

  lemma CandidateOf(raw: string, expand: bool)
    ensures var normalized := Normalized(raw);
      Candidate(raw, expand) ==
        if normalized == "" then [] else if expand then Chain(Segments(normalized)) else [normalized]
  {
    SegmentsAreSegments(raw);
    if Segments(raw) != [] {
      SegmentsOfJoin(Segments(raw));
    } else {
      assert Chain(Segments(raw)) == [];
    }
  }

  /** The list holds the first occurrences in `all`, and the set what is listed. */
  ghost predicate Listed(out: seq<string>, seen: set<string>, all: seq<string>) {
    out == Once(all) && forall x :: x in seen <==> x in out
  }

  lemma ListedStep(out: seq<string>, seen: set<string>, all: seq<string>, x: string)
    requires Listed(out, seen, all)
    ensures if x in seen then Listed(out, seen, all + [x]) else Listed(out + [x], seen + {x}, all + [x])
  {
    OnceSnoc(all, x);
  }

  lemma NothingListed(names: seq<string>, expand: bool)
    ensures Listed([], {}, Candidates(names[..0], expand))
  {
  }

  /** schemaPathsForNavigation */
  method SchemaPathsForNavigation(names: seq<string>, expand: bool) returns (out: seq<string>)
    ensures out == Once(Candidates(names, expand))
  {
    hide Once, Candidates, Candidate;
    out := [];
    var seen: set<string> := {};
    NothingListed(names, expand);
    for k := 0 to |names|
      invariant Listed(out, seen, Candidates(names[..k], expand))
    {
      var raw := names[k];
      ghost var before := Candidates(names[..k], expand);
      CandidatesSnoc(names[..k], raw, expand);
      CandidateOf(raw, expand);
      assert names[..k + 1] == names[..k] + [raw];
      var normalized := NormalizeSchemaPath(raw);
      if normalized == "" {
        assert before + [] == before;
        continue;
      }
      if !expand {
        ListedStep(out, seen, before, normalized);
        if normalized !in seen {
          seen := seen + {normalized};
          out := out + [normalized];
        }
        continue;
      }
      out, seen := AppendPrefixes(normalized, out, seen, before);
    }
    assert names[..|names|] == names;
  }

  method AppendPrefixes(normalized: string, out0: seq<string>, seen0: set<string>, ghost before: seq<string>)
    returns (out: seq<string>, seen: set<string>)
    requires Listed(out0, seen0, before)
    ensures Listed(out, seen, before + Chain(Segments(normalized)))
  {
    hide Listed;
    out, seen := out0, seen0;
    var parts := SplitSchemaPath(normalized);
    SegmentsAreSegments(normalized);
    ghost var chain := Chain(parts);
    var current := "";
    assert before + chain[..0] == before;
    for i := 0 to |parts|
      invariant current == Above(chain, i)
      invariant Listed(out, seen, before + chain[..i])
    {
      PrefixStep(parts, i, before);
      if current != "" {
        current := current + ".";
      }
      current := current + parts[i];
      ListedStep(out, seen, before + chain[..i], current);
      if current !in seen {
        seen := seen + {current};
        out := out + [current];
      }
    }
    assert chain[..|parts|] == chain;
  }

  lemma PrefixStep(parts: seq<string>, i: nat, before: seq<string>)
    requires AreSegments(parts) && i < |parts|
    ensures var chain := Chain(parts);
      && chain[i] == (if i == 0 then "" else Above(chain, i) + ".") + parts[i]
      && (Above(chain, i) == "" <==> i == 0)
      && before + chain[..i + 1] == before + chain[..i] + [chain[i]]
  {
    var chain := Chain(parts);
    ChainStep(parts, i);
    AboveHasText(parts, i);
    assert "" + parts[i] == parts[i];
    assert chain[..i + 1] == chain[..i] + [chain[i]];
  }

  lemma AboveHasText(parts: seq<string>, i: nat)
    requires AreSegments(parts) && i < |parts|
    ensures Above(Chain(parts), i) == "" <==> i == 0
  {
    ChainIsDotted(parts);
    if i > 0 {
      NotEmpty(Chain(parts), i - 1);
    }
  }

  // ----- what is listed, in terms of the names

  /** The path of `name` is `x`, or with expansion a path above it is. */
  predicate Mentions(name: string, expand: bool, x: string) {
    var segments := Segments(name);
    exists i :: 0 < i <= |segments| && (expand || i == |segments|) && x == Join(segments[..i])
  }

  lemma CandidateMentions(name: string, expand: bool, x: string)
    ensures x in Candidate(name, expand) <==> Mentions(name, expand, x)
  {
    hide Segments, Join;
    var segments := Segments(name);
    assert segments[..|segments|] == segments;
    if x in Candidate(name, expand) && expand {
      var k :| 0 <= k < |segments| && Chain(segments)[k] == x;
      assert x == Join(segments[..k + 1]);
    }
    if Mentions(name, expand, x) {
      var i :| 0 < i <= |segments| && (expand || i == |segments|) && x == Join(segments[..i]);
      assert expand ==> Chain(segments)[i - 1] == x;
    }
  }

  lemma {:induction false} CandidatesMention(names: seq<string>, expand: bool, x: string)
    ensures x in Candidates(names, expand) <==> exists k :: 0 <= k < |names| && Mentions(names[k], expand, x)
  {
    hide Mentions, Candidate;
    if names != [] {
      var n := |names| - 1;
      CandidatesMention(names[..n], expand, x);
      CandidateMentions(names[n], expand, x);
    }
  }

  /** Of two listed paths the former occurs before the latter. */
  lemma {:induction false} OnceOrder(xs: seq<string>, a: nat, b: nat) returns (p: nat)
    requires a < b < |Once(xs)|
    ensures p < |xs| && xs[p] == Once(xs)[a] && Once(xs)[b] !in xs[..p + 1]
  {
    var n := |xs| - 1;
    var front := xs[..n];
    if b < |Once(front)| {
      p := OnceOrder(front, a, b);
      assert xs[..p + 1] == front[..p + 1];
    } else {
      OnceKeepsAll(front, Once(front)[a]);
      OnceKeepsAll(front, xs[n]);
      p :| 0 <= p < n && front[p] == Once(front)[a];
      assert forall x :: x in xs[..p + 1] ==> x in front;
    }
  }

  lemma {:induction false} OnceIsDistinct(xs: seq<string>, a: nat, b: nat)
    requires a < b < |Once(xs)|
    ensures Once(xs)[a] != Once(xs)[b]
  {
    var p := OnceOrder(xs, a, b);
    assert xs[..p + 1][p] == xs[p];
  }

  /** Which name a candidate comes from. */
  lemma {:induction false} CandidateFrom(names: seq<string>, expand: bool, p: nat) returns (k: nat, i: nat)
    requires p < |Candidates(names, expand)|
    ensures k < |names| && i < |Candidate(names[k], expand)|
    ensures Candidate(names[k], expand)[i] == Candidates(names, expand)[p]
    ensures Candidates(names, expand)[..p + 1] == Candidates(names[..k], expand) + Candidate(names[k], expand)[..i + 1]
  {
    hide Candidate;
    var n := |names| - 1;
    var before, last := Candidates(names[..n], expand), Candidate(names[n], expand);
    if p < |before| {
      k, i := CandidateFrom(names[..n], expand, p);
      assert names[..n][..k] == names[..k];
      assert Candidates(names, expand)[..p + 1] == before[..p + 1];
    } else {
      k, i := n, p - |before|;
    }
  }

  lemma LaterIsLonger(name: string, expand: bool, i: nat, x: string)
    requires i < |Candidate(name, expand)| && x in Candidate(name, expand) && x !in Candidate(name, expand)[..i + 1]
    ensures |Candidate(name, expand)[i]| < |x|
  {
    hide Segments, Join;
    var c := Candidate(name, expand);
    var j :| 0 <= j < |c| && c[j] == x;
    if expand {
      SegmentsAreSegments(name);
      ChainIsDotted(Segments(name));
      NamesGrow(c, i, j);
    }
  }

  /** Path `a` is mentioned before path `b`: by an earlier name, or above it by the same name. */
  predicate MentionedBefore(names: seq<string>, expand: bool, a: string, b: string) {
    exists k :: 0 <= k < |names| && MentionedBeforeAt(names, expand, a, b, k)
  }

  predicate MentionedBeforeAt(names: seq<string>, expand: bool, a: string, b: string, k: nat)
    requires k < |names|
  {
    && Mentions(names[k], expand, a) && (forall j :: 0 <= j < k ==> !Mentions(names[j], expand, b))
    && (Mentions(names[k], expand, b) ==> |a| < |b|)
  }

  lemma ListedInOrder(names: seq<string>, expand: bool, a: nat, b: nat)
    requires a < b < |Once(Candidates(names, expand))|
    ensures var out := Once(Candidates(names, expand)); MentionedBefore(names, expand, out[a], out[b])
  {
    hide Mentions, Candidate, Candidates, Once;
    var all := Candidates(names, expand);
    var x, y := Once(all)[a], Once(all)[b];
    var p := OnceOrder(all, a, b);
    var k, i := CandidateFrom(names, expand, p);
    var c := Candidate(names[k], expand);
    assert y !in Candidates(names[..k], expand) && y !in c[..i + 1];
    CandidatesMention(names[..k], expand, y);
    assert forall j :: 0 <= j < k ==> names[..k][j] == names[j];
    CandidateMentions(names[k], expand, x);
    CandidateMentions(names[k], expand, y);
    if y in c {
      LaterIsLonger(names[k], expand, i, y);
    }
    assert MentionedBeforeAt(names, expand, x, y, k);
  }

  /** The paths for navigation are the paths that the names mention, each once, in the order of
      their first mention. */
  lemma NavigationListsMentions(names: seq<string>, expand: bool)
    ensures var out := Once(Candidates(names, expand));
      && (forall x :: x in out <==> exists k :: 0 <= k < |names| && Mentions(names[k], expand, x))
      && (forall a, b :: 0 <= a < b < |out| ==> out[a] != out[b] && MentionedBefore(names, expand, out[a], out[b]))
  {
    hide Mentions, Candidates, Once, MentionedBefore;
    var all := Candidates(names, expand);
    var out := Once(all);
    forall x
      ensures x in out <==> exists k :: 0 <= k < |names| && Mentions(names[k], expand, x)
    {
      OnceKeepsAll(all, x);
      CandidatesMention(names, expand, x);
    }
    forall a, b | 0 <= a < b < |out|
      ensures out[a] != out[b] && MentionedBefore(names, expand, out[a], out[b])
    {
      OnceIsDistinct(all, a, b);
      ListedInOrder(names, expand, a, b);
    }
  }

  // ----- the same children, whichever list the tree is built from

  function PathChains(names: seq<string>): (r: seq<seq<string>>)
    ensures |r| == |names|
  {
    seq(|names|, k requires 0 <= k < |names| => Chain(Segments(names[k])))
  }

  lemma PathChainsSnoc(names: seq<string>, name: string)
    ensures PathChains(names + [name]) == PathChains(names) + [Chain(Segments(name))]
  {
  }

  lemma PathChainsAreTreelike(names: seq<string>)
    ensures Treelike(PathChains(names))
  {
    var inputs := seq(|names|, k requires 0 <= k < |names| => Segments(names[k]));
    forall k | 0 <= k < |inputs|
      ensures AreSegments(inputs[k])
    {
      SegmentsAreSegments(names[k]);
    }
    ChainsAreTreelike(inputs);
    assert PathChains(names) == Chains(inputs);
  }

  lemma PathChainsPrefix(names: seq<string>, more: seq<string>, parent: string)
    ensures Children(PathChains(names + more), parent)
        == ChildrenFrom(Children(PathChains(names), parent), PathChains(more), parent)
    decreases |more|
  {
    if more == [] {
      assert names + more == names;
    } else {
      var n := |more| - 1;
      assert names + more == names + more[..n] + [more[n]];
      PathChainsPrefix(names, more[..n], parent);
      PathChainsSnoc(names + more[..n], more[n]);
      ChildrenSnoc(PathChains(names + more[..n]), Chain(Segments(more[n])), parent);
      assert PathChains(more)[..n] == PathChains(more[..n]);
    }
  }

  /** The children that further chains add to some. */
  function ChildrenFrom(before: seq<string>, cs: seq<seq<string>>, parent: string): seq<string> {
    if cs == [] then before
    else
      var n := |cs| - 1;
      WithChild(ChildrenFrom(before, cs[..n], parent), Below(cs[n], parent))
  }

  /** A path that was seen before adds nothing. */
  lemma {:induction false} OnceHasSameChildren(xs: seq<string>, parent: string)
    ensures Children(PathChains(Once(xs)), parent) == Children(PathChains(xs), parent)
  {
    if xs != [] {
      var n := |xs| - 1;
      var front, last := xs[..n], xs[n];
      var c := Chain(Segments(last));
      assert xs == front + [last];
      OnceHasSameChildren(front, parent);
      PathChainsSnoc(front, last);
      ChildrenSnoc(PathChains(front), c, parent);
      var once := Once(front);
      if last in once {
        var k :| 0 <= k < |once| && once[k] == last;
        assert PathChains(once)[k] == c && c in PathChains(once);
        ChildOfSome(PathChains(once), parent, Below(c, parent));
      } else {
        PathChainsSnoc(once, last);
        ChildrenSnoc(PathChains(once), c, parent);
      }
    }
  }

  /** The prefixes of a chain, one behind the other, add what the chain adds. */
  lemma {:induction false} PrefixesAddTheSame(before: seq<string>, segments: seq<string>, i: nat, parent: string)
    requires AreSegments(segments) && i <= |segments|
    ensures ChildrenFrom(before, PathChains(Chain(segments)[..i]), parent)
        == WithChild(before, Below(Chain(segments)[..i], parent))
    decreases i
  {
    var c := Chain(segments);
    if i == 0 {
      assert c[..0] == [] && PathChains([]) == [];
    } else {
      PrefixesAddTheSame(before, segments, i - 1, parent);
      ChainIsDotted(segments);
      BelowPrefix(c, i - 1, parent);
      PrefixChains(segments, i);
      ChildrenFromSnoc(before, PathChains(c[..i - 1]), c[..i], parent);
      WithChildTwice(before, Below(c[..i - 1], parent), Below(c[..i], parent));
    }
  }

  lemma PrefixChains(segments: seq<string>, i: nat)
    requires 0 < i <= |segments| && AreSegments(segments)
    ensures PathChains(Chain(segments)[..i]) == PathChains(Chain(segments)[..i - 1]) + [Chain(segments)[..i]]
  {
    hide Segments, Join;
    var c := Chain(segments);
    ChainOfPrefix(segments, i);
    assert c[..i] == c[..i - 1] + [c[i - 1]];
    PathChainsSnoc(c[..i - 1], c[i - 1]);
  }

  lemma WithChildTwice(before: seq<string>, x: string, y: string)
    requires x == "" || x == y
    ensures WithChild(WithChild(before, x), y) == WithChild(before, y)
  {
  }

  lemma ChildrenFromSnoc(before: seq<string>, cs: seq<seq<string>>, c: seq<string>, parent: string)
    ensures ChildrenFrom(before, cs + [c], parent) == WithChild(ChildrenFrom(before, cs, parent), Below(c, parent))
  {
    assert (cs + [c])[..|cs|] == cs;
  }

  lemma ChainOfPrefix(segments: seq<string>, i: nat)
    requires 0 < i <= |segments| && AreSegments(segments)
    ensures Chain(Segments(Chain(segments)[i - 1])) == Chain(segments)[..i]
  {
    hide Join, Segments;
    var front := segments[..i];
    SegmentsOfJoin(front);
    PrefixOfChain(segments, i);
    assert Chain(segments)[i - 1] == Join(front);
  }

  lemma PrefixOfChain(segments: seq<string>, i: nat)
    requires i <= |segments|
    ensures Chain(segments[..i]) == Chain(segments)[..i]
  {
    forall k | 0 <= k < i
      ensures Chain(segments[..i])[k] == Chain(segments)[k]
    {
      assert segments[..i][..k + 1] == segments[..k + 1];
    }
  }

  lemma CandidateAddsTheSame(before: seq<string>, name: string, expand: bool, parent: string)
    ensures ChildrenFrom(before, PathChains(Candidate(name, expand)), parent)
        == WithChild(before, Below(Chain(Segments(name)), parent))
  {
    var segments := Segments(name);
    SegmentsAreSegments(name);
    if expand {
      PrefixesAddTheSame(before, segments, |segments|, parent);
      assert Chain(segments)[..|segments|] == Chain(segments);
    } else if segments == [] {
      assert PathChains([]) == [];
    } else {
      SegmentsOfJoin(segments);
      var cs := PathChains([Join(segments)]);
      assert cs == [Chain(segments)] && cs[..0] == [];
    }
  }

  lemma {:induction false} CandidatesHaveSameChildren(names: seq<string>, expand: bool, parent: string)
    ensures Children(PathChains(Candidates(names, expand)), parent) == Children(PathChains(names), parent)
  {
    if names != [] {
      var n := |names| - 1;
      var front, last := names[..n], names[n];
      assert names == front + [last];
      CandidatesHaveSameChildren(front, expand, parent);
      PathChainsPrefix(Candidates(front, expand), Candidate(last, expand), parent);
      CandidateAddsTheSame(Children(PathChains(front), parent), last, expand, parent);
      PathChainsSnoc(front, last);
      ChildrenSnoc(PathChains(front), Chain(Segments(last)), parent);
    }
  }

  /** Neither duplicates nor expansion change the tree. */
  lemma NavigationHasSameChildren(names: seq<string>, expand: bool)
    ensures SameChildren(PathChains(Once(Candidates(names, expand))), PathChains(names))
  {
    forall p
      ensures Children(PathChains(Once(Candidates(names, expand))), p) == Children(PathChains(names), p)
    {
      OnceHasSameChildren(Candidates(names, expand), p);
      CandidatesHaveSameChildren(names, expand, p);
    }
  }

  // ----- the Go driver's list, under a pattern

  function Matching(xs: seq<string>, matches: string -> bool): seq<string> {
    if xs == [] then []
    else
      var n := |xs| - 1;
      Matching(xs[..n], matches) + if matches(xs[n]) then [xs[n]] else []
  }

  lemma MatchingSnoc(xs: seq<string>, x: string, matches: string -> bool)
    ensures Matching(xs + [x], matches) == Matching(xs, matches) + if matches(x) then [x] else []
  {
    assert (xs + [x])[..|xs|] == xs;
  }

  lemma {:induction false} MatchingKeeps(xs: seq<string>, x: string, matches: string -> bool)
    ensures x in Matching(xs, matches) <==> x in xs && matches(x)
  {
    if xs != [] {
      var n := |xs| - 1;
      assert xs == xs[..n] + [xs[n]];
      MatchingKeeps(xs[..n], x, matches);
    }
  }

  /** The list holds the first occurrences in `all` that match, and the set what is listed. */
  ghost predicate Selected(out: seq<string>, seen: set<string>, all: seq<string>, matches: string -> bool) {
    out == Matching(Once(all), matches) && forall x :: x in seen <==> x in out
  }

  /** appendSchemaUnique, for a name that matches. */
  method AppendUnique(name: string, out0: seq<string>, seen0: set<string>, matches: string -> bool,
                      ghost before: seq<string>)
    returns (out: seq<string>, seen: set<string>)
    requires Selected(out0, seen0, before, matches)
    ensures Selected(out, seen, before + [name], matches)
  {
    out, seen := out0, seen0;
    OnceSnoc(before, name);
    MatchingKeeps(Once(before), name, matches);
    MatchingSnoc(Once(before), name, matches);
    if matches(name) && name !in seen {
      seen := seen + {name};
      out := out + [name];
    }
  }

  /** appendSchemaWithParents */
  method AppendWithParents(normalized: string, out0: seq<string>, seen0: set<string>, matches: string -> bool,
                           ghost before: seq<string>)
    returns (out: seq<string>, seen: set<string>)
    requires Selected(out0, seen0, before, matches)
    ensures Selected(out, seen, before + Chain(Segments(normalized)), matches)
  {
    hide Selected;
    out, seen := out0, seen0;
    var parts := SplitSchemaPath(normalized);
    SegmentsAreSegments(normalized);
    ghost var chain := Chain(parts);
    var current := "";
    assert before + chain[..0] == before;
    for i := 0 to |parts|
      invariant current == Above(chain, i)
      invariant Selected(out, seen, before + chain[..i], matches)
    {
      PrefixStep(parts, i, before);
      if current != "" {
        current := current + ".";
      }
      current := current + parts[i];
      out, seen := AppendUnique(current, out, seen, matches, before + chain[..i]);
    }
    assert chain[..|parts|] == chain;
  }

  /** MetadataExpandSchemaNames: the paths for navigation that match the pattern, in order. */
  method MetadataExpandSchemaNames(names: seq<string>, matches: string -> bool, expand: bool) returns (out: seq<string>)
    ensures out == Matching(Once(Candidates(names, expand)), matches)
  {
    hide Once, Matching, Candidates, Candidate;
    out := [];
    var seen: set<string> := {};
    NothingSelected(names, matches, expand);
    for k := 0 to |names|
      invariant Selected(out, seen, Candidates(names[..k], expand), matches)
    {
      CandidatesSnoc(names[..k], names[k], expand);
      out, seen := ExpandOne(names[k], out, seen, matches, expand, Candidates(names[..k], expand));
      assert names[..k + 1] == names[..k] + [names[k]];
    }
    assert names[..|names|] == names;
  }

  lemma NothingSelected(names: seq<string>, matches: string -> bool, expand: bool)
    ensures Selected([], {}, Candidates(names[..0], expand), matches)
  {
  }

  /** The body of that loop. */
  method ExpandOne(raw: string, out0: seq<string>, seen0: set<string>, matches: string -> bool, expand: bool,
                   ghost before: seq<string>)
    returns (out: seq<string>, seen: set<string>)
    requires Selected(out0, seen0, before, matches)
    ensures Selected(out, seen, before + Candidate(raw, expand), matches)
  {
    hide Selected, Candidate;
    CandidateOf(raw, expand);
    var schemaName := NormalizeSchemaPath(raw);
    if schemaName == "" {
      assert before + [] == before;
      return out0, seen0;
    }
    if expand {
      out, seen := AppendWithParents(schemaName, out0, seen0, matches, before);
    } else {
      out, seen := AppendUnique(schemaName, out0, seen0, matches, before);
    }
  }

  /** Under a pattern that matches everything the two drivers list the same paths. */
  lemma {:induction false} MatchingEverything(xs: seq<string>, matches: string -> bool)
    requires forall x :: matches(x)
    ensures Matching(xs, matches) == xs
  {
    if xs != [] {
      MatchingEverything(xs[..|xs| - 1], matches);
    }
  }

  /** The Go list is the part of the C++ list that matches: the whole of it, in the same order, if
      the pattern is empty. */
  method NavigationListsAgree(names: seq<string>, matches: string -> bool, expand: bool)
    returns (cpp: seq<string>, go: seq<string>)
    ensures go == Matching(cpp, matches)
    ensures (forall x :: matches(x)) ==> go == cpp
  {
    cpp := SchemaPathsForNavigation(names, expand);
    go := MetadataExpandSchemaNames(names, matches, expand);
    if forall x :: matches(x) {
      MatchingEverything(cpp, matches);
    }
  }
}
