/** Dotted schema paths: splitting and normalizing, and what a list of them says a navigation
    tree must look like. */
module SchemaPaths {
  import opened Wrappers
  import opened StatementSplitter
  import opened StatementPrinting
  import opened TextSplit

  // ----- segments

  /** The trimmed parts that are not empty. */
  function Clean(parts: seq<string>): seq<string> {
    if parts == [] then []
    else
      var segment := Trim(parts[0]);
      (if segment == "" then [] else [segment]) + Clean(parts[1..])
  }

  function Segments(name: string): seq<string> {
    Clean(TextSplit.Split(name, '.'))
  }

  /** strings.Join(segments, ".") */
  function Join(segments: seq<string>): string {
    if segments == [] then ""
    else
      var n := |segments| - 1;
      if n == 0 then segments[0] else Join(segments[..n]) + "." + segments[n]
  }

  predicate IsSegment(s: string) {
    s != "" && '.' !in s && Trim(s) == s
  }

  predicate AreSegments(segments: seq<string>) {
    forall k :: 0 <= k < |segments| ==> IsSegment(segments[k])
  }

  lemma TrimmedIsSegment(part: string)
    requires '.' !in part
    ensures Trim(part) == "" || IsSegment(Trim(part))
  {
    var t := Trim(part);
    if t != "" {
      var lead, trail := TrimCuts(part);
      assert forall k :: 0 <= k < |t| ==> t[k] == part[|lead| + k];
      TrimDrops(t, "");
      assert t + "" == t;
    }
  }

  lemma {:induction false} CleanGivesSegments(parts: seq<string>)
    requires forall k :: 0 <= k < |parts| ==> '.' !in parts[k]
    ensures AreSegments(Clean(parts))
  {
    if parts != [] {
      TrimmedIsSegment(parts[0]);
      CleanGivesSegments(parts[1..]);
    }
  }

  lemma SegmentsAreSegments(name: string)
    ensures AreSegments(Segments(name))
  {
    SplitParts(name, '.');
    CleanGivesSegments(TextSplit.Split(name, '.'));
  }

  lemma {:induction false} CleanKeepsSegments(segments: seq<string>)
    requires AreSegments(segments)
    ensures Clean(segments) == segments
  {
    if segments != [] {
      CleanKeepsSegments(segments[1..]);
    }
  }

  lemma {:induction false} SplitJoin(segments: seq<string>)
    requires AreSegments(segments) && segments != []
    ensures TextSplit.Split(Join(segments), '.') == segments
  {
    var n := |segments| - 1;
    if n == 0 {
      SplitNothing(segments[0], '.');
    } else {
      SplitJoin(segments[..n]);
      SplitLast(Join(segments[..n]), segments[n], '.');
    }
  }

  /** Normalized paths are split into the segments they were made of. */
  lemma SegmentsOfJoin(segments: seq<string>)
    requires AreSegments(segments) && segments != []
    ensures Segments(Join(segments)) == segments && Join(segments) != ""
  {
    SplitJoin(segments);
    CleanKeepsSegments(segments);
    assert segments[|segments| - 1] != "";
  }

  /** Different paths have different dotted names. */
  lemma JoinInjective(a: seq<string>, b: seq<string>)
    requires AreSegments(a) && AreSegments(b) && a != [] && b != [] && Join(a) == Join(b)
    ensures a == b
  {
    SplitJoin(a);
    SplitJoin(b);
  }

  function Kept(segment: string): seq<string> {
    if segment == "" then [] else [segment]
  }

  lemma SegmentsStep(name: string)
    ensures var dot := IndexOf(name, '.');
      Segments(name) == Kept(Trim(name[..dot])) + if dot < |name| then Segments(name[dot + 1..]) else []
  {
    hide Clean, TextSplit.Split, Trim;
    var dot := IndexOf(name, '.');
    SplitAtIndex(name, '.');
    if dot < |name| {
      CleanCons(name[..dot], TextSplit.Split(name[dot + 1..], '.'));
    } else {
      var none: seq<string> := [];
      assert name[..dot] == name && [name] + none == [name];
      CleanCons(name, none);
      CleanNothing();
    }
  }

  lemma CleanNothing()
    ensures Clean([]) == []
  {
  }

  lemma CleanCons(part: string, parts: seq<string>)
    ensures Clean([part] + parts) == Kept(Trim(part)) + Clean(parts)
  {
    assert ([part] + parts)[1..] == parts;
  }

  /** The segments of a path are its parts between dots, in order, without the white space around
      them; a part of nothing but white space is none. */
  lemma SegmentsAreTrimmedParts(lead: string, core: string, trail: string, rest: string)
    requires AllSpace(lead) && AllSpace(trail) && Trimmed(core) && '.' !in core
    ensures var part, segment := lead + core + trail, if core == "" then [] else [core];
      Segments(part) == segment && Segments(part + "." + rest) == segment + Segments(rest)
  {
    hide Clean, Trim;
    var part := lead + core + trail;
    TrimIsExact(lead, core, trail);
    SplitNothing(part, '.');
    SplitFirst(part, rest, '.');
    CleanCons(part, TextSplit.Split(rest, '.'));
    assert [part] + [] == [part];
    CleanCons(part, []);
    CleanNothing();
  }

  /** `segments` were found before `start`. */
  ghost predicate Splitting(segments: seq<string>, name: string, start: nat, goal: seq<string>) {
    start <= |name| && segments + Segments(name[start..]) == goal
  }

  lemma SplitProgress(segments: seq<string>, name: string, start: nat, dot: nat, goal: seq<string>)
    requires Splitting(segments, name, start, goal) && dot == start + IndexOf(name[start..], '.')
    ensures start <= dot <= |name|
    ensures var more := segments + Kept(Trim(name[start..dot]));
      if dot < |name| then Splitting(more, name, dot + 1, goal) else more == goal
  {
    hide Trim, Segments;
    var rest := name[start..];
    SegmentsStep(rest);
    assert name[start..dot] == rest[..dot - start];
    var kept := Kept(Trim(name[start..dot]));
    if dot < |name| {
      assert rest[dot - start + 1..] == name[dot + 1..];
      Assoc(segments, kept, Segments(name[dot + 1..]));
    } else {
      assert kept + [] == kept;
    }
  }

  /** splitSchemaPath */
  method SplitSchemaPath(name: string) returns (segments: seq<string>)
    ensures segments == Segments(name)
  {
    segments := [];
    var start := 0;
    ghost var goal := Segments(name);
    assert name[0..] == name && [] + goal == goal;
    while start <= |name|
      invariant 0 <= start && Splitting(segments, name, start, goal)
      decreases |name| - start
    {
      var dot := start + IndexOf(name[start..], '.');
      SplitProgress(segments, name, start, dot, goal);
      var segment := TrimCopy(name[start..dot]);
      if segment != "" {
        segments := segments + [segment];
      } else {
        assert segments + Kept(segment) == segments;
      }
      if dot == |name| {
        break;
      }
      start := dot + 1;
    }
  }

  /** normalizeSchemaPath and Go's normalizeMetadataSchemaPath, for ASCII names. */
  function Normalized(name: string): string {
    Join(Segments(name))
  }

  method NormalizeSchemaPath(name: string) returns (normalized: string)
    ensures normalized == Normalized(name)
  {
    var parts := SplitSchemaPath(name);
    normalized := "";
    for i := 0 to |parts|
      invariant normalized == Join(parts[..i])
    {
      assert parts[..i + 1][..i] == parts[..i];
      if i > 0 {
        normalized := normalized + ".";
      }
      normalized := normalized + parts[i];
    }
    assert parts[..|parts|] == parts;
  }

  // ----- a path as the chain of its prefixes

  /** The dotted names from the outermost schema down to the path itself. */
  function Chain(segments: seq<string>): (r: seq<string>)
    ensures |r| == |segments|
  {
    seq(|segments|, i requires 0 <= i < |segments| => Join(segments[..i + 1]))
  }

  function LastSegment(path: string): string {
    var parts := TextSplit.Split(path, '.');
    parts[|parts| - 1]
  }

  function Above(c: seq<string>, i: nat): string
    requires i <= |c|
  {
    if i == 0 then "" else c[i - 1]
  }

  /** `above`, dot, `segment` */
  function Extended(above: string, segment: string): string {
    if above == "" then segment else above + "." + segment
  }

  /** The text of a name is the text of the name above it, a dot and its last segment. */
  predicate DottedAt(c: seq<string>, i: nat)
    requires i < |c|
  {
    c[i] == Extended(Above(c, i), LastSegment(c[i])) && LastSegment(c[i]) != ""
  }

  predicate Dotted(c: seq<string>) {
    forall i :: 0 <= i < |c| ==> DottedAt(c, i)
  }

  lemma ChainStep(segments: seq<string>, i: nat)
    requires AreSegments(segments) && i < |segments|
    ensures var c := Chain(segments);
      c[i] == Extended(Above(c, i), segments[i]) && LastSegment(c[i]) == segments[i]
  {
    var upTo := segments[..i + 1];
    assert upTo[..i] == segments[..i];
    SplitJoin(upTo);
    if i > 0 {
      SegmentsOfJoin(segments[..i]);
    }
  }

  lemma ChainIsDotted(segments: seq<string>)
    requires AreSegments(segments)
    ensures Dotted(Chain(segments))
  {
    forall i | 0 <= i < |segments|
      ensures DottedAt(Chain(segments), i)
    {
      ChainStep(segments, i);
    }
  }

  lemma ChainEnds(segments: seq<string>)
    requires segments != []
    ensures Chain(segments)[|segments| - 1] == Join(segments)
  {
    hide Chain, Join;
    var n := |segments| - 1;
    ChainAt(segments, n);
    assert segments[..n + 1] == segments;
  }

  lemma ChainAt(segments: seq<string>, i: nat)
    requires i < |segments|
    ensures Chain(segments)[i] == Join(segments[..i + 1])
  {
  }

  /** A name determines the names above it. */
  predicate Agree(d: seq<string>, e: seq<string>) {
    forall i, j :: 0 <= i < |d| && 0 <= j < |e| && d[i] == e[j] ==> i == j && d[..i] == e[..j]
  }

  ghost predicate Treelike(cs: seq<seq<string>>) {
    && (forall d :: d in cs ==> Dotted(d))
    && (forall d, e :: d in cs && e in cs ==> Agree(d, e))
  }

  lemma ChainsAgree(a: seq<string>, b: seq<string>)
    requires AreSegments(a) && AreSegments(b)
    ensures Agree(Chain(a), Chain(b))
  {
    forall i, j | 0 <= i < |a| && 0 <= j < |b| && Chain(a)[i] == Chain(b)[j]
      ensures i == j && Chain(a)[..i] == Chain(b)[..j]
    {
      JoinInjective(a[..i + 1], b[..j + 1]);
      assert |a[..i + 1]| == |b[..j + 1]|;
      forall k | 0 <= k < i
        ensures Chain(a)[k] == Chain(b)[k]
      {
        assert a[..k + 1] == a[..i + 1][..k + 1] == b[..k + 1];
      }
    }
  }

  function Chains(inputs: seq<seq<string>>): (r: seq<seq<string>>)
    ensures |r| == |inputs|
  {
    seq(|inputs|, k requires 0 <= k < |inputs| => Chain(inputs[k]))
  }

  lemma ChainsAreTreelike(inputs: seq<seq<string>>)
    requires forall k :: 0 <= k < |inputs| ==> AreSegments(inputs[k])
    ensures Treelike(Chains(inputs))
  {
    forall d | d in Chains(inputs)
      ensures Dotted(d)
    {
      var k :| 0 <= k < |inputs| && d == Chain(inputs[k]);
      ChainIsDotted(inputs[k]);
    }
    forall d, e | d in Chains(inputs) && e in Chains(inputs)
      ensures Agree(d, e)
    {
      var k :| 0 <= k < |inputs| && d == Chain(inputs[k]);
      var l :| 0 <= l < |inputs| && e == Chain(inputs[l]);
      ChainsAgree(inputs[k], inputs[l]);
    }
  }
}
