/** The rows of a schema navigation tree in terms of the names it was built from: which there are,
    which are terminal, and in which order they stand. */
module SchemaPreorder {
  import opened StatementPrinting
  import opened SchemaPaths
  import opened SchemaForest
  import opened SchemaRows
  import opened SchemaNavigation
  import opened SchemaTree

  // ----- order

  /** `p` is `q` or above it, or the two are below siblings of which that of `p` is mentioned first. */
  ghost predicate Earlier(cs: seq<seq<string>>, p: string, q: string) {
    Descends(cs, p, q) || exists owner, a, b :: SiblingsTell(cs, owner, a, b, p, q)
  }

  ghost predicate SiblingsTell(cs: seq<seq<string>>, owner: string, a: string, b: string, p: string, q: string) {
    && a in Children(cs, owner) && b in Children(cs, owner) && Descends(cs, a, p) && Descends(cs, b, q)
    && FirstMention(cs, owner, a) < FirstMention(cs, owner, b)
  }

  ghost predicate InPreorder(cs: seq<seq<string>>, paths: seq<string>) {
    forall i, j :: 0 <= i < j < |paths| ==> Earlier(cs, paths[i], paths[j])
  }

  lemma PreorderConcat(cs: seq<seq<string>>, xs: seq<string>, ys: seq<string>)
    requires InPreorder(cs, xs) && InPreorder(cs, ys)
    requires forall x, y :: x in xs && y in ys ==> Earlier(cs, x, y)
    ensures InPreorder(cs, xs + ys)
  {
    hide Earlier;
    var zs := xs + ys;
    forall i, j | 0 <= i < j < |zs|
      ensures Earlier(cs, zs[i], zs[j])
    {
      if i < |xs| <= j {
        assert zs[i] in xs && zs[j] in ys;
      }
    }
  }

  lemma {:induction false} UnderInPreorder(cs: seq<seq<string>>, marks: set<string>, database: string,
                                           parentPath: string, p: string, topLevel: bool)
    requires Treelike(cs) && p in Names(cs)
    ensures InPreorder(cs, PathsIn(RowsUnder(cs, marks, database, parentPath, p, topLevel)))
    decreases Room(cs, p), 1, 0
  {
    hide Earlier;
    var first, kids := SchemaRow(database, parentPath, p, p in marks, topLevel), Children(cs, p);
    var rows := RowsOf(cs, marks, database, p, p, kids, false);
    ChildrenDistinct(cs, p);
    ChildrenAreInFirstSeenOrder(cs, p);
    OfInPreorder(cs, marks, database, p, p, kids, false);
    UnderIsListed(cs, marks, database, parentPath, p, topLevel);
    PathsInConcat([first], rows);
    assert PathsIn([first]) == [p];
    forall y | y in PathsIn(rows)
      ensures Earlier(cs, p, y)
    {
      assert y in PathsIn(RowsUnder(cs, marks, database, parentPath, p, topLevel));
      AboveIsEarlier(cs, p, y);
    }
    PreorderConcat(cs, [p], PathsIn(rows));
  }

  lemma AboveIsEarlier(cs: seq<seq<string>>, p: string, q: string)
    requires Descends(cs, p, q)
    ensures Earlier(cs, p, q)
  {
  }

  lemma {:induction false} OfInPreorder(cs: seq<seq<string>>, marks: set<string>, database: string, parentPath: string,
                                        owner: string, kids: seq<string>, topLevel: bool)
    requires Treelike(cs) && Kids(cs, owner, kids) && Distinct(kids) && InFirstSeenOrder(cs, owner, kids)
    ensures InPreorder(cs, PathsIn(RowsOf(cs, marks, database, parentPath, owner, kids, topLevel)))
    decreases Room(cs, owner), 0, |kids|
  {
    hide Earlier, FirstMention;
    if kids != [] {
      var first := RowsUnder(cs, marks, database, parentPath, kids[0], topLevel);
      var others := RowsOf(cs, marks, database, parentPath, owner, kids[1..], topLevel);
      ChildrenAreLonger(cs, owner, kids[0]);
      UnderInPreorder(cs, marks, database, parentPath, kids[0], topLevel);
      OfInPreorder(cs, marks, database, parentPath, owner, kids[1..], topLevel);
      UnderIsListed(cs, marks, database, parentPath, kids[0], topLevel);
      OfIsListed(cs, marks, database, parentPath, owner, kids[1..], topLevel);
      forall x, y | x in PathsIn(first) && y in PathsIn(others)
        ensures Earlier(cs, x, y)
      {
        var k :| k in kids[1..] && Descends(cs, k, y);
        SiblingIsEarlier(cs, owner, kids, k, x, y);
      }
      PathsInConcat(first, others);
      PreorderConcat(cs, PathsIn(first), PathsIn(others));
    }
  }

  lemma SiblingIsEarlier(cs: seq<seq<string>>, owner: string, kids: seq<string>, k: string, p: string, q: string)
    requires kids != [] && Kids(cs, owner, kids) && InFirstSeenOrder(cs, owner, kids)
    requires k in kids[1..] && Descends(cs, kids[0], p) && Descends(cs, k, q)
    ensures Earlier(cs, p, q)
  {
    hide Descends, FirstMention;
    var j :| 1 <= j < |kids| && kids[j] == k;
    assert kids[0] in kids && kids[j] in kids;
    assert SiblingsTell(cs, owner, kids[0], kids[j], p, q);
  }

  // ----- rows and names

  lemma NamesAreMentioned(names: seq<string>, p: string)
    ensures p in Names(PathChains(names)) <==> exists k :: 0 <= k < |names| && Mentions(names[k], true, p)
  {
    hide Mentions, Segments;
    var cs := PathChains(names);
    forall k | 0 <= k < |names|
      ensures p in cs[k] <==> Mentions(names[k], true, p)
    {
      CandidateMentions(names[k], true, p);
    }
    if p in Names(cs) {
      var c :| c in cs && p in c;
      var k :| 0 <= k < |cs| && cs[k] == c;
      assert Mentions(names[k], true, p);
    }
    if exists k :: 0 <= k < |names| && Mentions(names[k], true, p) {
      var k :| 0 <= k < |names| && Mentions(names[k], true, p);
      assert cs[k] in cs;
    }
  }

  /** Main result: behind the row of the database, named by its trimmed name or `default`, there is
      one row for each path that the names mention, terminal exactly for inputs (with expansion, for
      all), a path before those below it, and siblings with all that is below them in the order of
      their first mention. */
  lemma RowsSpeakOfNames(names: seq<string>, expand: bool, lead: string, core: string, trail: string)
    requires AllSpace(lead) && AllSpace(trail) && Trimmed(core)
    ensures Treelike(PathChains(names))
    ensures var db := if core == "" then "default" else core;
      var rows := TreeRows(PathChains(names), MarkedPaths(names, expand), DatabaseName(lead + core + trail));
      && rows[0] == Row(Database, db, "", db, db, false, false)
      && (forall p :: p in PathsIn(rows[1..]) <==> exists k :: 0 <= k < |names| && Mentions(names[k], true, p))
      && Distinct(PathsIn(rows[1..])) && InPreorder(PathChains(names), PathsIn(rows[1..]))
      && (forall i :: 0 < i < |rows| ==>
            (rows[i].terminal <==> exists k :: 0 <= k < |names| && Mentions(names[k], expand, rows[i].path)))
  {
    hide Mentions, InPreorder, RowsOf, Segments, Children, Names;
    var cs, marks, db := PathChains(names), MarkedPaths(names, expand), DatabaseName(lead + core + trail);
    TrimIsExact(lead, core, trail);
    PathChainsAreTreelike(names);
    EachNameOnce(cs, marks, db);
    TreeRowsAreRight(cs, marks, db);
    RowsInPreorder(cs, marks, db);
    var rows := TreeRows(cs, marks, db);
    forall p
      ensures p in PathsIn(rows[1..]) <==> exists k :: 0 <= k < |names| && Mentions(names[k], true, p)
    {
      NamesAreMentioned(names, p);
    }
    forall i | 0 < i < |rows|
      ensures rows[i].terminal <==> exists k :: 0 <= k < |names| && Mentions(names[k], expand, rows[i].path)
    {
      assert RowIsRight(cs, marks, db, rows[i]);
      MarksAreMentioned(names, expand, rows[i].path);
    }
  }

  lemma RowsInPreorder(cs: seq<seq<string>>, marks: set<string>, database: string)
    requires Treelike(cs)
    ensures InPreorder(cs, PathsIn(TreeRows(cs, marks, database)[1..]))
  {
    hide InPreorder;
    ChildrenDistinct(cs, "");
    ChildrenAreInFirstSeenOrder(cs, "");
    OfInPreorder(cs, marks, database, database, "", Children(cs, ""), true);
    assert TreeRows(cs, marks, database)[1..] == RowsOf(cs, marks, database, database, "", Children(cs, ""), true);
  }

  lemma MarksAreMentioned(names: seq<string>, expand: bool, p: string)
    ensures p in MarkedPaths(names, expand) <==> exists k :: 0 <= k < |names| && Mentions(names[k], expand, p)
  {
    CandidatesMention(names, expand, p);
  }
}
