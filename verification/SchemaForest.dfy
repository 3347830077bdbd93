/** The tree over a list of dotted paths, as its definition: which names it has, which children
    each name has and in which order, and the rows of its preorder. */
module SchemaForest {
  import opened SchemaPaths

  // ----- names and children

  /** The distinct names of all chains. */
  function Names(cs: seq<seq<string>>): set<string> {
    set c, p | c in cs && p in c :: p
  }

  /** The name that follows `parent` in a chain; "" stands above the first. */
  function Below(c: seq<string>, parent: string): string {
    if c == [] then ""
    else if parent == "" then c[0]
    else if parent == c[0] then (if |c| > 1 then c[1] else "")
    else Below(c[1..], parent)
  }

  function WithChild(children: seq<string>, child: string): seq<string> {
    if child == "" || child in children then children else children + [child]
  }

  /** The children of a name in the order in which the chains first mention them. */
  function Children(cs: seq<seq<string>>, parent: string): seq<string> {
    if cs == [] then []
    else
      var n := |cs| - 1;
      WithChild(Children(cs[..n], parent), Below(cs[n], parent))
  }

  lemma ChildrenSnoc(cs: seq<seq<string>>, c: seq<string>, parent: string)
    ensures Children(cs + [c], parent) == WithChild(Children(cs, parent), Below(c, parent))
  {
    assert (cs + [c])[..|cs|] == cs;
  }

  lemma NamesSnoc(cs: seq<seq<string>>, c: seq<string>)
    ensures Names(cs + [c]) == Names(cs) + set p | p in c
  {
    forall p
      ensures p in Names(cs + [c]) <==> p in Names(cs) || p in c
    {
      if p in c {
        assert c in cs + [c];
      }
    }
  }

  // ----- one chain

  lemma NotEmpty(c: seq<string>, i: nat)
    requires Dotted(c) && i < |c|
    ensures c[i] != "" && |Above(c, i)| < |c[i]|
  {
    assert DottedAt(c, i);
  }

  lemma {:induction false} NamesGrow(c: seq<string>, i: nat, j: nat)
    requires Dotted(c) && i < j < |c|
    ensures |c[i]| < |c[j]|
    decreases j
  {
    NotEmpty(c, j);
    if i < j - 1 {
      NamesGrow(c, i, j - 1);
    }
  }

  lemma AboveIsUnique(c: seq<string>, i: nat, j: nat)
    requires Dotted(c) && i <= |c| && j <= |c| && Above(c, i) == Above(c, j)
    ensures i == j
  {
    if i < j {
      NotEmpty(c, j - 1);
      if i > 0 {
        NamesGrow(c, i - 1, j - 1);
      }
    } else if j < i {
      NotEmpty(c, i - 1);
      if j > 0 {
        NamesGrow(c, j - 1, i - 1);
      }
    }
  }

  lemma {:induction false} BelowFound(c: seq<string>, parent: string) returns (k: nat)
    requires Below(c, parent) != ""
    ensures k < |c| && c[k] == Below(c, parent) && Above(c, k) == parent
    ensures parent == "" || parent in c
  {
    if parent == "" {
      k := 0;
    } else if parent == c[0] {
      k := 1;
    } else {
      var l := BelowFound(c[1..], parent);
      k := l + 1;
    }
  }

  lemma {:induction false} BelowExists(c: seq<string>, parent: string, k: nat)
    requires k < |c| && Above(c, k) == parent && c[k] != "" && forall i :: 0 <= i < |c| ==> c[i] != ""
    ensures Below(c, parent) != ""
    decreases k
  {
    if parent != "" && parent != c[0] {
      assert c[1..][k - 1] == c[k];
      BelowExists(c[1..], parent, k - 1);
    }
  }

  lemma BelowIs(c: seq<string>, k: nat)
    requires Dotted(c) && k < |c|
    ensures Below(c, Above(c, k)) == c[k]
  {
    forall i | 0 <= i < |c|
      ensures c[i] != ""
    {
      NotEmpty(c, i);
    }
    BelowExists(c, Above(c, k), k);
    var l := BelowFound(c, Above(c, k));
    AboveIsUnique(c, k, l);
  }

  lemma DottedPrefix(c: seq<string>, i: nat)
    requires Dotted(c) && i <= |c|
    ensures Dotted(c[..i])
  {
    forall k | 0 <= k < i
      ensures DottedAt(c[..i], k)
    {
      assert DottedAt(c, k);
    }
  }

  /** One more name of a chain changes what is below the name before it, and nothing else. */
  lemma BelowPrefix(c: seq<string>, i: nat, parent: string)
    requires Dotted(c) && i < |c|
    ensures Below(c[..i + 1], parent) == if parent == Above(c, i) then c[i] else Below(c[..i], parent)
    ensures parent == Above(c, i) ==> Below(c[..i], parent) == ""
  {
    var shorter, longer := c[..i], c[..i + 1];
    DottedPrefix(c, i);
    DottedPrefix(c, i + 1);
    if Below(shorter, parent) != "" {
      var k := BelowFound(shorter, parent);
      assert Above(c, k) == parent;
      if parent == Above(c, i) {
        AboveIsUnique(c, k, i);
      }
      assert Above(longer, k) == parent && longer[k] == shorter[k];
      BelowIs(longer, k);
    }
    if Below(longer, parent) != "" {
      var k := BelowFound(longer, parent);
      assert Above(c, k) == parent;
      if k < i {
        assert Above(shorter, k) == parent && shorter[k] == longer[k];
        BelowIs(shorter, k);
      }
    }
    if parent == Above(c, i) {
      assert Above(longer, i) == parent;
      BelowIs(longer, i);
    }
  }

  // ----- several chains

  lemma {:induction false} ChildOfSome(cs: seq<seq<string>>, parent: string, child: string)
    ensures child in Children(cs, parent) <==> child != "" && exists d :: d in cs && Below(d, parent) == child
  {
    if cs != [] {
      var n := |cs| - 1;
      var front, last := cs[..n], cs[n];
      assert cs == front + [last];
      ChildOfSome(front, parent, child);
      if child != "" && Below(last, parent) == child {
        assert last in cs;
      }
    }
  }

  lemma TreelikeParts(cs: seq<seq<string>>, c: seq<string>, i: nat)
    requires Treelike(cs + [c]) && i <= |c|
    ensures Treelike(cs) && Dotted(c) && Treelike(cs + [c[..i]])
  {
    assert c in cs + [c];
    assert forall d :: d in cs ==> d in cs + [c];
    DottedPrefix(c, i);
    forall d, e | d in cs + [c[..i]] && e in cs + [c[..i]]
      ensures Agree(d, e)
    {
      var d1, e1 := if d in cs then d else c, if e in cs then e else c;
      assert Agree(d1, e1);
      AgreePrefix(d, d1, e, e1);
    }
  }

  lemma AgreePrefix(d: seq<string>, d1: seq<string>, e: seq<string>, e1: seq<string>)
    requires d <= d1 && e <= e1 && Agree(d1, e1)
    ensures Agree(d, e)
  {
    forall i, j | 0 <= i < |d| && 0 <= j < |e| && d[i] == e[j]
      ensures i == j && d[..i] == e[..j]
    {
      assert d1[i] == e1[j];
      assert d[..i] == d1[..i] && e[..j] == e1[..j];
    }
  }

  lemma SameAbove(d: seq<string>, e: seq<string>, i: nat, j: nat)
    requires Agree(d, e) && i < |d| && j < |e| && d[i] == e[j]
    ensures i == j && Above(d, i) == Above(e, j)
  {
    if i > 0 {
      assert d[..i][i - 1] == d[i - 1] && e[..i][i - 1] == e[i - 1];
    }
  }

  /** A name that occurs in some chain is below the same name there. */
  lemma SameParent(cs: seq<seq<string>>, d: seq<string>, c: seq<string>, i: nat)
    requires Treelike(cs) && d in cs && c in cs && i < |c| && c[i] in d
    ensures Below(d, Above(c, i)) == c[i]
  {
    var j :| 0 <= j < |d| && d[j] == c[i];
    SameAbove(d, c, j, i);
    BelowIs(d, i);
  }

  /** The next name of a chain is known already exactly when it is a child already. */
  lemma KnownMeansChild(cs: seq<seq<string>>, c: seq<string>, i: nat)
    requires Treelike(cs + [c]) && i < |c|
    ensures c[i] in Names(cs + [c[..i]]) <==> c[i] in Children(cs, Above(c, i))
  {
    TreelikeParts(cs, c, i);
    NotEmpty(c, i);
    ChildOfSome(cs, Above(c, i), c[i]);
    NamesSnoc(cs, c[..i]);
    if c[i] in c[..i] {
      var k :| 0 <= k < i && c[k] == c[i];
      NamesGrow(c, k, i);
    }
    if c[i] in Names(cs) {
      var d :| d in cs && c[i] in d;
      assert d in cs + [c] && c in cs + [c];
      SameParent(cs + [c], d, c, i);
    }
    if c[i] in Children(cs, Above(c, i)) {
      var d :| d in cs && Below(d, Above(c, i)) == c[i];
      var k := BelowFound(d, Above(c, i));
      assert d[k] in d;
    }
  }

  /** A name that occurs nowhere has no children. */
  lemma UnknownIsChildless(cs: seq<seq<string>>, p: string)
    requires p !in Names(cs) && p != ""
    ensures Children(cs, p) == []
  {
    if Children(cs, p) != [] {
      var x := Children(cs, p)[0];
      ChildOfSome(cs, p, x);
      var d :| d in cs && Below(d, p) == x;
      var _ := BelowFound(d, p);
    }
  }

  /** What visiting one name of a chain does to the children of every name. */
  lemma ChildrenStep(cs: seq<seq<string>>, c: seq<string>, i: nat, parent: string)
    requires Treelike(cs + [c]) && i < |c|
    ensures var before, after := Children(cs + [c[..i]], parent), Children(cs + [c[..i + 1]], parent);
      after == if parent == Above(c, i) && c[i] !in Names(cs + [c[..i]]) then before + [c[i]] else before
  {
    TreelikeParts(cs, c, i);
    ChildrenSnoc(cs, c[..i], parent);
    ChildrenSnoc(cs, c[..i + 1], parent);
    BelowPrefix(c, i, parent);
    KnownMeansChild(cs, c, i);
    NotEmpty(c, i);
  }

  lemma NamesStep(cs: seq<seq<string>>, c: seq<string>, i: nat)
    requires i < |c|
    ensures Names(cs + [c[..i + 1]]) == Names(cs + [c[..i]]) + {c[i]}
  {
    NamesSnoc(cs, c[..i]);
    NamesSnoc(cs, c[..i + 1]);
    assert c[..i + 1] == c[..i] + [c[i]];
  }

  lemma NoNamesYet(cs: seq<seq<string>>, parent: string)
    ensures Names(cs + [[]]) == Names(cs) && Children(cs + [[]], parent) == Children(cs, parent)
  {
    NamesSnoc(cs, []);
    ChildrenSnoc(cs, [], parent);
  }

  // ----- first-seen order

  /** The first chain in which `child` is below `parent`. */
  function FirstMention(cs: seq<seq<string>>, parent: string, child: string): (r: nat)
    ensures r <= |cs|
  {
    if cs == [] || Below(cs[0], parent) == child then 0 else 1 + FirstMention(cs[1..], parent, child)
  }

  lemma {:induction false} FirstMentionSnoc(cs: seq<seq<string>>, c: seq<string>, parent: string, child: string)
    ensures FirstMention(cs + [c], parent, child) ==
      if FirstMention(cs, parent, child) < |cs| || Below(c, parent)
          == child then FirstMention(cs, parent, child) else |cs| + 1
    ensures FirstMention(cs, parent, child) < |cs| <==> exists d :: d in cs && Below(d, parent) == child
  {
    if cs == [] {
      assert [] + [c] == [c];
    } else {
      assert (cs + [c])[1..] == cs[1..] + [c];
      FirstMentionSnoc(cs[1..], c, parent, child);
      if exists d :: d in cs && Below(d, parent) == child {
        var d :| d in cs && Below(d, parent) == child;
        if d != cs[0] {
          assert d in cs[1..];
        }
      }
    }
  }

  predicate InFirstSeenOrder(cs: seq<seq<string>>, parent: string, kids: seq<string>) {
    && (forall i, j :: 0 <= i < j < |kids| ==> FirstMention(cs, parent, kids[i]) < FirstMention(cs, parent, kids[j]))
    && (forall i :: 0 <= i < |kids| ==> FirstMention(cs, parent, kids[i]) < |cs|)
  }

  /** The children of a name are listed once each, in the order of their first mention. */
  lemma {:induction false} ChildrenAreInFirstSeenOrder(cs: seq<seq<string>>, parent: string)
    ensures InFirstSeenOrder(cs, parent, Children(cs, parent))
  {
    if cs != [] {
      var n := |cs| - 1;
      assert cs == cs[..n] + [cs[n]];
      ChildrenAreInFirstSeenOrder(cs[..n], parent);
      OrderSnoc(cs[..n], cs[n], parent);
    }
  }

  lemma OrderSnoc(front: seq<seq<string>>, last: seq<string>, parent: string)
    requires InFirstSeenOrder(front, parent, Children(front, parent))
    ensures InFirstSeenOrder(front + [last], parent, WithChild(Children(front, parent), Below(last, parent)))
  {
    var before, child := Children(front, parent), Below(last, parent);
    var kids := WithChild(before, child);
    forall i | 0 <= i < |kids|
      ensures FirstMention(front + [last], parent, kids[i]) == if i < |before| then FirstMention(front, parent,
            before[i]) else |front|
    {
      FirstMentionSnoc(front, last, parent, kids[i]);
      ChildOfSome(front, parent, kids[i]);
    }
  }
}
