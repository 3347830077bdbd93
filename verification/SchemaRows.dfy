/** The rows of a schema navigation tree: the preorder of the tree over a list of paths. */
module SchemaRows {
  import opened SchemaPaths
  import opened SchemaForest

  datatype RowKind = Database | Schema

  datatype Row = Row(kind: RowKind, database: string, parentPath: string, path: string, name: string,
                     terminal: bool, topLevel: bool)

  function DatabaseRow(database: string): Row {
    Row(Database, database, "", database, database, false, false)
  }

  function SchemaRow(database: string, parentPath: string, path: string, terminal: bool, topLevel: bool): Row {
    Row(Schema, database, parentPath, path, LastSegment(path), terminal, topLevel)
  }

  // ----- a measure: names get longer

  function TotalLength(c: seq<string>): nat {
    if c == [] then 0 else |c[0]| + TotalLength(c[1..])
  }

  function Bound(cs: seq<seq<string>>): nat {
    if cs == [] then 0 else TotalLength(cs[0]) + Bound(cs[1..])
  }

  lemma {:induction false} InTotal(c: seq<string>, p: string)
    requires p in c
    ensures |p| <= TotalLength(c)
  {
    if p != c[0] {
      InTotal(c[1..], p);
    }
  }

  lemma {:induction false} InBound(cs: seq<seq<string>>, p: string)
    requires p in Names(cs)
    ensures |p| <= Bound(cs)
  {
    var c :| c in cs && p in c;
    if c == cs[0] {
      InTotal(c, p);
    } else {
      assert c in cs[1..];
      InBound(cs[1..], p);
    }
  }

  function Room(cs: seq<seq<string>>, p: string): nat {
    if |p| <= Bound(cs) then Bound(cs) - |p| else 0
  }

  /** Children are names, and longer than their parent. */
  lemma ChildrenAreLonger(cs: seq<seq<string>>, parent: string, child: string)
    requires Treelike(cs) && child in Children(cs, parent)
    ensures child in Names(cs) && |parent| < |child| && Room(cs, child) < Room(cs, parent)
  {
    ChildOfSome(cs, parent, child);
    var d :| d in cs && Below(d, parent) == child;
    var k := BelowFound(d, parent);
    assert d[k] in d;
    NotEmpty(d, k);
    InBound(cs, child);
  }

  // ----- preorder

  ghost predicate Kids(cs: seq<seq<string>>, owner: string, kids: seq<string>) {
    forall k :: k in kids ==> k in Children(cs, owner)
  }

  /** A name and everything below it. */
  ghost function RowsUnder(cs: seq<seq<string>>, marks: set<string>, database: string, parentPath: string, p: string,
                           topLevel: bool): seq<Row>
    requires Treelike(cs)
    decreases Room(cs, p), 1, 0
  {
    [SchemaRow(database, parentPath, p, p in marks, topLevel)]
    + RowsOf(cs, marks, database, p, p, Children(cs, p), false)
  }

  /** Some children of `owner`, one behind the other. */
  ghost function RowsOf(cs: seq<seq<string>>, marks: set<string>, database: string, parentPath: string, owner: string,
                        kids: seq<string>, topLevel: bool): seq<Row>
    requires Treelike(cs) && Kids(cs, owner, kids)
    decreases Room(cs, owner), 0, |kids|
  {
    if kids == [] then []
    else
      ChildrenAreLonger(cs, owner, kids[0]);
      RowsUnder(cs, marks, database, parentPath, kids[0], topLevel)
      + RowsOf(cs, marks, database, parentPath, owner, kids[1..], topLevel)
  }

  /** The row of the database and the trees of the outermost schemas. */
  ghost function TreeRows(cs: seq<seq<string>>, marks: set<string>, database: string): seq<Row>
    requires Treelike(cs)
  {
    [DatabaseRow(database)] + RowsOf(cs, marks, database, database, "", Children(cs, ""), true)
  }

  /** Two lists of paths with the same children everywhere have the same rows. */
  ghost predicate SameChildren(cs: seq<seq<string>>, ds: seq<seq<string>>) {
    forall p :: Children(cs, p) == Children(ds, p)
  }

  lemma {:induction false} SameUnder(cs: seq<seq<string>>, ds: seq<seq<string>>, marks: set<string>, database: string,
                                     parentPath: string, p: string, topLevel: bool)
    requires Treelike(cs) && Treelike(ds) && SameChildren(cs, ds)
    ensures RowsUnder(cs, marks, database, parentPath, p, topLevel)
        == RowsUnder(ds, marks, database, parentPath, p, topLevel)
    decreases Room(cs, p), 1, 0
  {
    assert Children(cs, p) == Children(ds, p);
    SameOf(cs, ds, marks, database, p, p, Children(cs, p), false);
  }

  lemma {:induction false} SameOf(cs: seq<seq<string>>, ds: seq<seq<string>>, marks: set<string>, database: string,
                                  parentPath: string, owner: string, kids: seq<string>, topLevel: bool)
    requires Treelike(cs) && Treelike(ds) && SameChildren(cs, ds) && Kids(cs, owner, kids)
    ensures Kids(ds, owner, kids)
    ensures RowsOf(cs, marks, database, parentPath, owner, kids, topLevel)
         == RowsOf(ds, marks, database, parentPath, owner, kids, topLevel)
    decreases Room(cs, owner), 0, |kids|
  {
    assert Children(cs, owner) == Children(ds, owner);
    if kids != [] {
      ChildrenAreLonger(cs, owner, kids[0]);
      SameUnder(cs, ds, marks, database, parentPath, kids[0], topLevel);
      SameOf(cs, ds, marks, database, parentPath, owner, kids[1..], topLevel);
    }
  }

  lemma SameRows(cs: seq<seq<string>>, ds: seq<seq<string>>, marks: set<string>, database: string)
    requires Treelike(cs) && Treelike(ds) && SameChildren(cs, ds)
    ensures TreeRows(cs, marks, database) == TreeRows(ds, marks, database)
  {
    assert Children(cs, "") == Children(ds, "");
    SameOf(cs, ds, marks, database, database, "", Children(cs, ""), true);
  }

  // ----- what the rows are

  /** `q` is `p` or below it. */
  ghost predicate Descends(cs: seq<seq<string>>, p: string, q: string) {
    exists c, i, j :: c in cs && 0 <= i <= j < |c| && c[i] == p && c[j] == q
  }

  /** A row says what it must about its path. */
  ghost predicate RowIsRight(cs: seq<seq<string>>, marks: set<string>, database: string, r: Row) {
    && r.kind == Schema && r.database == database && r.path in Names(cs)
    && (r.terminal <==> r.path in marks)
    && r.path == Extended(if r.topLevel then "" else r.parentPath, r.name) && r.name != ""
    && (if r.topLevel then r.parentPath == database else r.path in Children(cs, r.parentPath))
  }

  lemma OwnRowIsRight(cs: seq<seq<string>>, marks: set<string>, database: string, parentPath: string, owner: string,
                      p: string, topLevel: bool)
    requires Treelike(cs) && p in Children(cs, owner)
    requires if topLevel then owner == "" && parentPath == database else parentPath == owner != ""
    ensures RowIsRight(cs, marks, database, SchemaRow(database, parentPath, p, p in marks, topLevel))
  {
    ChildOfSome(cs, owner, p);
    var d :| d in cs && Below(d, owner) == p;
    var k := BelowFound(d, owner);
    assert d[k] in d && DottedAt(d, k);
  }

  lemma {:induction false} RowsUnderAreRight(cs: seq<seq<string>>, marks: set<string>, database: string,
                                             parentPath: string, owner: string, p: string, topLevel: bool)
    requires Treelike(cs) && p in Children(cs, owner)
    requires if topLevel then owner == "" && parentPath == database else parentPath == owner != ""
    ensures forall r ::
      r in RowsUnder(cs, marks, database, parentPath, p, topLevel) ==>
        RowIsRight(cs, marks, database, r)
    decreases Room(cs, p), 1, 0
  {
    OwnRowIsRight(cs, marks, database, parentPath, owner, p, topLevel);
    ChildrenAreLonger(cs, owner, p);
    RowsOfAreRight(cs, marks, database, p, p, Children(cs, p), false);
  }

  lemma {:induction false} RowsOfAreRight(cs: seq<seq<string>>, marks: set<string>, database: string, parentPath: string,
                                          owner: string, kids: seq<string>, topLevel: bool)
    requires Treelike(cs) && Kids(cs, owner, kids)
    requires if topLevel then owner == "" && parentPath == database else parentPath == owner != ""
    ensures forall r ::
      r in RowsOf(cs, marks, database, parentPath, owner, kids, topLevel) ==>
        RowIsRight(cs, marks, database, r)
    decreases Room(cs, owner), 0, |kids|
  {
    if kids != [] {
      ChildrenAreLonger(cs, owner, kids[0]);
      RowsUnderAreRight(cs, marks, database, parentPath, owner, kids[0], topLevel);
      RowsOfAreRight(cs, marks, database, parentPath, owner, kids[1..], topLevel);
    }
  }

  /** Every schema row carries the database, its last segment, the path that its parent and name
      spell, and whether its path was an input; its path is a child of its parent. */
  lemma TreeRowsAreRight(cs: seq<seq<string>>, marks: set<string>, database: string)
    requires Treelike(cs)
    ensures var rows := TreeRows(cs, marks, database);
      && rows[0] == DatabaseRow(database)
      && forall k :: 0 < k < |rows| ==> RowIsRight(cs, marks, database, rows[k])
  {
    RowsOfAreRight(cs, marks, database, database, "", Children(cs, ""), true);
    var rest := RowsOf(cs, marks, database, database, "", Children(cs, ""), true);
    forall k | 0 < k < |TreeRows(cs, marks, database)|
      ensures RowIsRight(cs, marks, database, TreeRows(cs, marks, database)[k])
    {
      assert TreeRows(cs, marks, database)[k] == rest[k - 1];
      assert rest[k - 1] in rest;
    }
  }

  // ----- each name once

  function PathsIn(rows: seq<Row>): (r: seq<string>)
    ensures |r| == |rows|
  {
    seq(|rows|, k requires 0 <= k < |rows| => rows[k].path)
  }

  lemma PathsInConcat(a: seq<Row>, b: seq<Row>)
    ensures PathsIn(a + b) == PathsIn(a) + PathsIn(b)
  {
  }

  predicate Distinct(xs: seq<string>) {
    forall i, j :: 0 <= i < j < |xs| ==> xs[i] != xs[j]
  }

  lemma DistinctConcat(xs: seq<string>, ys: seq<string>)
    requires Distinct(xs) && Distinct(ys) && forall x :: x in xs ==> x !in ys
    ensures Distinct(xs + ys)
  {
    var zs := xs + ys;
    forall i, j | 0 <= i < j < |zs|
      ensures zs[i] != zs[j]
    {
      if i < |xs| <= j {
        assert zs[i] in xs && zs[j] in ys;
      }
    }
  }

  lemma {:induction false} ChildrenDistinct(cs: seq<seq<string>>, parent: string)
    ensures Distinct(Children(cs, parent))
  {
    if cs != [] {
      ChildrenDistinct(cs[..|cs| - 1], parent);
    }
  }

  /** No name is below two children of one parent. */
  lemma SiblingsAreApart(cs: seq<seq<string>>, owner: string, k1: string, k2: string, q: string)
    requires Treelike(cs) && k1 in Children(cs, owner) && k2 in Children(cs, owner)
    requires Descends(cs, k1, q) && Descends(cs, k2, q)
    ensures k1 == k2
  {
    var c, i, j :| c in cs && 0 <= i <= j < |c| && c[i] == k1 && c[j] == q;
    var d, k, l :| d in cs && 0 <= k <= l < |d| && d[k] == k2 && d[l] == q;
    assert Agree(c, d);
    assert j == l && c[..j] == d[..j];
    ParentOfChild(cs, owner, c, i);
    ParentOfChild(cs, owner, d, k);
    SameLevel(c, d, i, k, j);
  }

  lemma ParentOfChild(cs: seq<seq<string>>, owner: string, c: seq<string>, i: nat)
    requires Treelike(cs) && c in cs && i < |c| && c[i] in Children(cs, owner)
    ensures Above(c, i) == owner
  {
    ChildOfSome(cs, owner, c[i]);
    var d :| d in cs && Below(d, owner) == c[i];
    var k := BelowFound(d, owner);
    assert Agree(d, c);
    SameAbove(d, c, k, i);
  }

  lemma SameLevel(c: seq<string>, d: seq<string>, i: nat, k: nat, j: nat)
    requires Dotted(c) && Dotted(d) && i <= j < |c| && k <= j < |d| && c[..j] == d[..j] && c[j] == d[j]
    requires Above(c, i) == Above(d, k)
    ensures i == k && c[i] == d[k]
  {
    assert Above(d, k) == Above(c, k) by {
      if k > 0 {
        assert c[..j][k - 1] == d[..j][k - 1];
      }
    }
    AboveIsUnique(c, i, k);
    if i < j {
      assert c[..j][i] == d[..j][i];
    }
  }

  lemma DescendsFurther(cs: seq<seq<string>>, p: string, kid: string, q: string)
    requires Treelike(cs) && kid in Children(cs, p) && Descends(cs, kid, q) && p != ""
    ensures Descends(cs, p, q)
  {
    var c, i, j :| c in cs && 0 <= i <= j < |c| && c[i] == kid && c[j] == q;
    ParentOfChild(cs, p, c, i);
    assert i > 0 && c[i - 1] == p;
  }

  lemma NameDescendsFromItself(cs: seq<seq<string>>, p: string)
    requires p in Names(cs)
    ensures Descends(cs, p, p)
  {
    var c :| c in cs && p in c;
    var i :| 0 <= i < |c| && c[i] == p;
    assert c in cs && 0 <= i <= i < |c| && c[i] == p;
  }

  /** The paths under a name are distinct and are the names that descend from it. */
  ghost predicate ListsUnder(cs: seq<seq<string>>, p: string, paths: seq<string>) {
    Distinct(paths) && forall q :: q in paths <==> Descends(cs, p, q)
  }

  /** The paths of some children of `owner`. */
  ghost predicate ListsOf(cs: seq<seq<string>>, kids: seq<string>, paths: seq<string>) {
    Distinct(paths) && forall q :: q in paths <==> exists k :: k in kids && Descends(cs, k, q)
  }

  lemma {:induction false} UnderIsListed(cs: seq<seq<string>>, marks: set<string>, database: string, parentPath: string,
                                         p: string, topLevel: bool)
    requires Treelike(cs) && p in Names(cs)
    ensures ListsUnder(cs, p, PathsIn(RowsUnder(cs, marks, database, parentPath, p, topLevel)))
    decreases Room(cs, p), 1, 0
  {
    var kids := Children(cs, p);
    var rows := RowsOf(cs, marks, database, p, p, kids, false);
    ChildrenDistinct(cs, p);
    OfIsListed(cs, marks, database, p, p, kids, false);
    PathsInConcat([SchemaRow(database, parentPath, p, p in marks, topLevel)], rows);
    ListFromKids(cs, p, PathsIn(rows));
    assert PathsIn([SchemaRow(database, parentPath, p, p in marks, topLevel)]) == [p];
  }

  lemma NamesHaveText(cs: seq<seq<string>>, p: string)
    requires Treelike(cs) && p in Names(cs)
    ensures p != ""
  {
    var c :| c in cs && p in c;
    var i :| 0 <= i < |c| && c[i] == p;
    NotEmpty(c, i);
  }

  lemma ListFromKids(cs: seq<seq<string>>, p: string, paths: seq<string>)
    requires Treelike(cs) && p in Names(cs) && ListsOf(cs, Children(cs, p), paths)
    ensures ListsUnder(cs, p, [p] + paths)
  {
    NameDescendsFromItself(cs, p);
    NamesHaveText(cs, p);
    forall q
      ensures q in paths <==> q != p && Descends(cs, p, q)
    {
      if q in paths {
        var k :| k in Children(cs, p) && Descends(cs, k, q);
        DescendsFurther(cs, p, k, q);
        DescendantsAreLonger(cs, k, q);
        ChildrenAreLonger(cs, p, k);
      }
      if q != p && Descends(cs, p, q) {
        var k := NextBelow(cs, p, q);
        assert k in Children(cs, p) && Descends(cs, k, q);
      }
    }
    DistinctConcat([p], paths);
  }

  lemma DescendantsAreLonger(cs: seq<seq<string>>, p: string, q: string)
    requires Treelike(cs) && Descends(cs, p, q)
    ensures |p| <= |q|
  {
    var c, i, j :| c in cs && 0 <= i <= j < |c| && c[i] == p && c[j] == q;
    if i < j {
      NamesGrow(c, i, j);
    }
  }

  lemma NextBelow(cs: seq<seq<string>>, p: string, q: string) returns (k: string)
    requires Treelike(cs) && q != p && Descends(cs, p, q)
    ensures k in Children(cs, p) && Descends(cs, k, q)
  {
    var c, i, j :| c in cs && 0 <= i <= j < |c| && c[i] == p && c[j] == q;
    assert i < j;
    k := c[i + 1];
    assert Above(c, i + 1) == p;
    BelowIs(c, i + 1);
    NotEmpty(c, i + 1);
    ChildOfSome(cs, p, k);
    assert c in cs && i + 1 <= j && c[i + 1] == k && c[j] == q;
  }

  lemma {:induction false} OfIsListed(cs: seq<seq<string>>, marks: set<string>, database: string, parentPath: string,
                                      owner: string, kids: seq<string>, topLevel: bool)
    requires Treelike(cs) && Kids(cs, owner, kids) && Distinct(kids)
    ensures ListsOf(cs, kids, PathsIn(RowsOf(cs, marks, database, parentPath, owner, kids, topLevel)))
    decreases Room(cs, owner), 0, |kids|
  {
    if kids != [] {
      var first := RowsUnder(cs, marks, database, parentPath, kids[0], topLevel);
      var others := RowsOf(cs, marks, database, parentPath, owner, kids[1..], topLevel);
      ChildrenAreLonger(cs, owner, kids[0]);
      UnderIsListed(cs, marks, database, parentPath, kids[0], topLevel);
      OfIsListed(cs, marks, database, parentPath, owner, kids[1..], topLevel);
      PathsInConcat(first, others);
      ListsJoin(cs, owner, kids, PathsIn(first), PathsIn(others));
    }
  }

  lemma ListsJoin(cs: seq<seq<string>>, owner: string, kids: seq<string>, first: seq<string>, others: seq<string>)
    requires Treelike(cs) && kids != [] && Kids(cs, owner, kids) && Distinct(kids)
    requires ListsUnder(cs, kids[0], first) && ListsOf(cs, kids[1..], others)
    ensures ListsOf(cs, kids, first + others)
  {
    forall x | x in first
      ensures x !in others
    {
      if x in others {
        var k :| k in kids[1..] && Descends(cs, k, x);
        assert k in kids;
        SiblingsAreApart(cs, owner, kids[0], k, x);
      }
    }
    DistinctConcat(first, others);
    forall q
      ensures q in first + others <==> exists k :: k in kids && Descends(cs, k, q)
    {
      if q in others {
        var k :| k in kids[1..] && Descends(cs, k, q);
        assert k in kids;
      }
      if exists k :: k in kids && Descends(cs, k, q) {
        var k :| k in kids && Descends(cs, k, q);
        assert k == kids[0] || k in kids[1..];
      }
    }
  }

  /** The schema rows list each distinct dotted prefix once. */
  lemma EachNameOnce(cs: seq<seq<string>>, marks: set<string>, database: string)
    requires Treelike(cs)
    ensures var paths := PathsIn(TreeRows(cs, marks, database)[1..]);
      Distinct(paths) && forall p :: p in paths <==> p in Names(cs)
  {
    var kids := Children(cs, "");
    var rows := RowsOf(cs, marks, database, database, "", kids, true);
    assert TreeRows(cs, marks, database)[1..] == rows;
    ChildrenDistinct(cs, "");
    OfIsListed(cs, marks, database, database, "", kids, true);
    forall p
      ensures p in Names(cs) <==> exists k :: k in kids && Descends(cs, k, p)
    {
      if p in Names(cs) {
        var k := OutermostAbove(cs, p);
        assert k in kids && Descends(cs, k, p);
      }
      if k :| k in kids && Descends(cs, k, p) {
        DescendantIsName(cs, k, p);
      }
    }
  }

  lemma OutermostAbove(cs: seq<seq<string>>, p: string) returns (k: string)
    requires Treelike(cs) && p in Names(cs)
    ensures k in Children(cs, "") && Descends(cs, k, p)
  {
    var c :| c in cs && p in c;
    var j :| 0 <= j < |c| && c[j] == p;
    k := c[0];
    BelowIs(c, 0);
    NotEmpty(c, 0);
    ChildOfSome(cs, "", k);
    assert c in cs && 0 <= 0 <= j < |c| && c[0] == k && c[j] == p;
  }

  lemma DescendantIsName(cs: seq<seq<string>>, k: string, p: string)
    requires Descends(cs, k, p)
    ensures p in Names(cs)
  {
    var c, i, j :| c in cs && 0 <= i <= j < |c| && c[i] == k && c[j] == p;
    assert c[j] in c;
  }

  // ----- parents first

  /** Each row that is not at the top stands behind the row of its parent. */
  predicate ParentsFirst(known: set<string>, rows: seq<Row>) {
    forall k :: 0 <= k < |rows| ==> HasParent(known, rows, k)
  }

  predicate HasParent(known: set<string>, rows: seq<Row>, k: nat)
    requires k < |rows|
  {
    rows[k].topLevel || rows[k].parentPath in known || exists i :: 0 <= i < k && rows[i].path == rows[k].parentPath
  }

  lemma ParentsFirstConcat(known: set<string>, a: seq<Row>, b: seq<Row>)
    requires ParentsFirst(known, a) && ParentsFirst(known, b)
    ensures ParentsFirst(known, a + b)
  {
    forall k | 0 <= k < |a + b|
      ensures HasParent(known, a + b, k)
    {
      if k < |a| {
        assert HasParent(known, a, k);
        if exists i :: 0 <= i < k && a[i].path == a[k].parentPath {
          var i :| 0 <= i < k && a[i].path == a[k].parentPath;
          assert (a + b)[i] == a[i];
        }
      } else {
        assert HasParent(known, b, k - |a|);
        if exists i :: 0 <= i < k - |a| && b[i].path == b[k - |a|].parentPath {
          var i :| 0 <= i < k - |a| && b[i].path == b[k - |a|].parentPath;
          assert (a + b)[|a| + i] == b[i];
        }
      }
    }
  }

  lemma ParentsFirstBehind(known: set<string>, first: Row, rows: seq<Row>)
    requires ParentsFirst({first.path}, rows) && (first.topLevel || first.parentPath in known)
    ensures ParentsFirst(known, [first] + rows)
  {
    var all := [first] + rows;
    forall k | 0 <= k < |all|
      ensures HasParent(known, all, k)
    {
      if k > 0 {
        assert HasParent({first.path}, rows, k - 1);
        if rows[k - 1].parentPath == first.path {
          assert all[0].path == all[k].parentPath;
        } else if !rows[k - 1].topLevel {
          var i :| 0 <= i < k - 1 && rows[i].path == rows[k - 1].parentPath;
          assert all[i + 1].path == all[k].parentPath;
        }
      }
    }
  }

  lemma {:induction false} UnderParentsFirst(cs: seq<seq<string>>, marks: set<string>, database: string,
                                             parentPath: string, p: string, topLevel: bool)
    requires Treelike(cs)
    ensures ParentsFirst({parentPath}, RowsUnder(cs, marks, database, parentPath, p, topLevel))
    decreases Room(cs, p), 1, 0
  {
    OfParentsFirst(cs, marks, database, p, p, Children(cs, p), false);
    ParentsFirstBehind({parentPath}, SchemaRow(database, parentPath, p, p in marks, topLevel),
                       RowsOf(cs, marks, database, p, p, Children(cs, p), false));
  }

  lemma {:induction false} OfParentsFirst(cs: seq<seq<string>>, marks: set<string>, database: string, parentPath: string,
                                          owner: string, kids: seq<string>, topLevel: bool)
    requires Treelike(cs) && Kids(cs, owner, kids)
    ensures ParentsFirst({parentPath}, RowsOf(cs, marks, database, parentPath, owner, kids, topLevel))
    decreases Room(cs, owner), 0, |kids|
  {
    if kids != [] {
      ChildrenAreLonger(cs, owner, kids[0]);
      UnderParentsFirst(cs, marks, database, parentPath, kids[0], topLevel);
      OfParentsFirst(cs, marks, database, parentPath, owner, kids[1..], topLevel);
      ParentsFirstConcat({parentPath}, RowsUnder(cs, marks, database, parentPath, kids[0], topLevel),
                         RowsOf(cs, marks, database, parentPath, owner, kids[1..], topLevel));
    }
  }

  /** Parents come before their children, the database before everything. */
  lemma TreeRowsParentsFirst(cs: seq<seq<string>>, marks: set<string>, database: string)
    requires Treelike(cs)
    ensures ParentsFirst({""}, TreeRows(cs, marks, database))
  {
    OfParentsFirst(cs, marks, database, database, "", Children(cs, ""), true);
    ParentsFirstBehind({""}, DatabaseRow(database), RowsOf(cs, marks, database, database, "", Children(cs, ""), true));
  }
}
