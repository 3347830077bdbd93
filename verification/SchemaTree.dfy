/** The two builders of the schema navigation tree: buildSchemaTreeRows of metadata_shaping.cpp
    and MetadataBuildSchemaTree of metadata.go. */
module SchemaTree {
  import opened StatementSplitter
  import opened SchemaPaths
  import opened SchemaForest
  import opened SchemaRows
  import opened SchemaNavigation

  class Node {
    var name: string
    var fullPath: string
    var terminal: bool
    var children: seq<Node>

    constructor (segment: string, path: string)
      ensures name == segment && fullPath == path && !terminal && children == []
    {
      name, fullPath, terminal, children := segment, path, false, [];
    }
  }

  // ----- nodes in memory and the tree they stand for

  /** The fields of a node. */
  datatype Info = Info(name: string, fullPath: string, terminal: bool, children: seq<Node>)

  function InfoOf(n: Node): Info
    reads n
  {
    Info(n.name, n.fullPath, n.terminal, n.children)
  }

  function View(nodes: map<string, Node>): map<string, Info>
    reads nodes.Values
  {
    map p | p in nodes :: InfoOf(nodes[p])
  }

  /** The nodes of some names, in order. */
  predicate Linked(kids: seq<Node>, names: seq<string>, nodes: map<string, Node>) {
    |kids| == |names| && forall k :: 0 <= k < |names| ==> names[k] in nodes && kids[k] == nodes[names[k]]
  }

  /** A tree in the abstract: its names, the children and the lastName of each, and the marked ones. */
  datatype Shape = Shape(names: set<string>, kids: string -> seq<string>, lastName: string -> string, marks: set<string>)

  function ShapeOf(cs: seq<seq<string>>, marks: set<string>): Shape {
    Shape(Names(cs), p => Children(cs, p), LastSegment, marks)
  }

  predicate Holds(info: Info, p: string, nodes: map<string, Node>, shape: Shape) {
    && info.fullPath == p && info.name == shape.lastName(p) && (info.terminal <==> p in shape.marks)
    && Linked(info.children, shape.kids(p), nodes)
  }

  predicate IsTree(view: map<string, Info>, nodes: map<string, Node>, roots: seq<Node>, shape: Shape) {
    && nodes.Keys == view.Keys == shape.names
    && Linked(roots, shape.kids(""), nodes)
    && forall p {:trigger Holds(view[p], p, nodes, shape)} :: p in view ==> Holds(view[p], p, nodes, shape)
  }

  /** The nodes are those of the tree over `cs`, terminal where marked. */
  ghost predicate Represents(nodes: map<string, Node>, roots: seq<Node>, shape: Shape)
    reads nodes.Values
  {
    IsTree(View(nodes), nodes, roots, shape)
  }

  lemma LinkedGrows(kids: seq<Node>, names: seq<string>, nodes: map<string, Node>, path: string, node: Node)
    requires Linked(kids, names, nodes) && path !in nodes
    ensures Linked(kids, names, nodes[path := node])
    ensures Linked(kids + [node], names + [path], nodes[path := node])
  {
  }

  /** `after` is `before` with the one name `path` more, the last child of `above`. */
  ghost predicate Grows(before: Shape, after: Shape, above: string, path: string) {
    && after.names == before.names + {path} && path !in before.names && path !in before.marks && path != ""
    && above != path && (above == "" || above in before.names) && "" !in before.names
    && (forall p :: after.kids(p) == if p == above then before.kids(p) + [path] else before.kids(p))
    && before.kids(path) == []
    && after.lastName == before.lastName && after.marks == before.marks
  }

  ghost predicate Same(before: Shape, after: Shape) {
    && after.names == before.names && (forall p :: after.kids(p) == before.kids(p))
    && after.lastName == before.lastName && after.marks == before.marks
  }

  function Hung(view: map<string, Info>, above: string, path: string, lastName: string, node: Node): map<string, Info> {
    var created := view[path := Info(lastName, path, false, [])];
    if above in view then created[above := view[above].(children := view[above].children + [node])] else created
  }

  lemma Found(view: map<string, Info>, nodes: map<string, Node>, roots: seq<Node>, before: Shape, after: Shape)
    requires IsTree(view, nodes, roots, before) && Same(before, after)
    ensures IsTree(view, nodes, roots, after)
  {
    forall p | p in view
      ensures Holds(view[p], p, nodes, after)
    {
      assert Holds(view[p], p, nodes, before);
    }
  }

  lemma Created(view: map<string, Info>, nodes: map<string, Node>, roots: seq<Node>, before: Shape, after: Shape,
                above: string, path: string, node: Node)
    requires IsTree(view, nodes, roots, before) && Grows(before, after, above, path)
    ensures IsTree(Hung(view, above, path, before.lastName(path), node), nodes[path := node],
                   if above == "" then roots + [node] else roots, after)
  {
    var hung, more := Hung(view, above, path, before.lastName(path), node), nodes[path := node];
    LinkedGrows(roots, before.kids(""), nodes, path, node);
    forall p | p in hung
      ensures Holds(hung[p], p, more, after)
    {
      if p != path {
        assert Holds(view[p], p, nodes, before);
        LinkedGrows(view[p].children, before.kids(p), nodes, path, node);
      }
    }
  }

  /** The shape over the chains `cs` and the first `i` names of `c`. */
  function Partial(cs: seq<seq<string>>, c: seq<string>, i: nat, marks: set<string>): Shape
    requires i <= |c|
  {
    ShapeOf(cs + [c[..i]], marks)
  }

  lemma PartialStep(cs: seq<seq<string>>, c: seq<string>, i: nat, marks: set<string>)
    requires Treelike(cs + [c]) && i < |c|
    requires c[i] in Names(cs + [c[..i]]) || c[i] !in marks
    ensures var before, after := Partial(cs, c, i, marks), Partial(cs, c, i + 1, marks);
      if c[i] in before.names then Same(before, after)
      else Grows(before, after, Above(c, i), c[i])
  {
    var before, after := Partial(cs, c, i, marks), Partial(cs, c, i + 1, marks);
    NamesStep(cs, c, i);
    forall p
      ensures after.kids(p) == if p == Above(c,
            i) && c[i] !in before.names then before.kids(p) + [c[i]] else before.kids(p)
    {
      ChildrenStep(cs, c, i, p);
    }
    TreelikeParts(cs, c, i);
    NotEmpty(c, i);
    NoEmptyName(cs + [c[..i]]);
    if c[i] !in before.names {
      UnknownIsChildless(cs + [c[..i]], c[i]);
    }
    if i > 0 {
      assert c[..i][i - 1] in c[..i] && c[..i] in cs + [c[..i]];
    }
  }

  lemma NoEmptyName(cs: seq<seq<string>>)
    requires Treelike(cs)
    ensures "" !in Names(cs)
  {
    if "" in Names(cs) {
      NamesHaveText(cs, "");
    }
  }

  lemma NodesDiffer(nodes: map<string, Node>, roots: seq<Node>, shape: Shape, q: string)
    requires Represents(nodes, roots, shape) && q in nodes
    ensures forall p :: p in nodes && p != q ==> nodes[p] != nodes[q]
  {
    forall p | p in nodes && p != q
      ensures nodes[p] != nodes[q]
    {
      assert Holds(View(nodes)[p], p, nodes, shape) && Holds(View(nodes)[q], q, nodes, shape);
    }
  }

  /** From one shape to the next by one name. */
  ghost predicate Step(before: Shape, after: Shape, above: string, path: string, segment: string) {
    && before.lastName(path) == segment && path != ""
    && if path in before.names then Same(before, after) else Grows(before, after, above, path)
  }

  /** No node stands for "", which is above the roots. */
  predicate IsNodeOf(node: Node?, path: string, nodes: map<string, Node>) {
    if path == "" then node == null else path in nodes && node == nodes[path]
  }

  /** No nodes but those of `before` and new ones. */
  twostate predicate Within(new nodes: map<string, Node>, before: map<string, Node>) {
    fresh(nodes.Values - before.Values)
  }

  /** The node of a name, created and hung below its parent if there is none. */
  method FindOrCreate(nodes0: map<string, Node>, roots0: seq<Node>, parent: Node?, segment: string, path: string,
                      ghost above: string, ghost before: Shape, ghost after: Shape)
    returns (node: Node, nodes: map<string, Node>, roots: seq<Node>)
    requires Represents(nodes0, roots0, before) && Step(before, after, above, path, segment)
    requires IsNodeOf(parent, above, nodes0)
    modifies nodes0.Values
    ensures Represents(nodes, roots, after) && IsNodeOf(node, path, nodes) && Within(nodes, nodes0)
    ensures path != ""
  {
    nodes, roots := nodes0, roots0;
    if path in nodes {
      node := nodes[path];
      Found(View(nodes0), nodes0, roots0, before, after);
    } else {
      node := new Node(segment, path);
      nodes, roots := Hang(nodes, roots, parent, path, node, above, before, after);
    }
  }

  method Hang(nodes0: map<string, Node>, roots0: seq<Node>, parent: Node?, path: string, node: Node,
              ghost above: string, ghost before: Shape, ghost after: Shape)
    returns (nodes: map<string, Node>, roots: seq<Node>)
    requires Represents(nodes0, roots0, before) && Grows(before, after, above, path)
    requires IsNodeOf(parent, above, nodes0)
    requires node !in nodes0.Values && InfoOf(node) == Info(before.lastName(path), path, false, [])
    modifies nodes0.Values
    ensures Represents(nodes, roots, after) && nodes == nodes0[path := node]
  {
    nodes, roots := nodes0[path := node], roots0;
    ghost var view := View(nodes0);
    Created(view, nodes0, roots0, before, after, above, path, node);
    if parent == null {
      roots := roots + [node];
      assert View(nodes) == Hung(view, "", path, before.lastName(path), node);
    } else {
      NodesDiffer(nodes0, roots0, before, above);
      parent.children := parent.children + [node];
      assert View(nodes) == Hung(view, above, path, before.lastName(path), node);
    }
  }

  method MarkTerminal(node: Node, ghost path: string, ghost nodes: map<string, Node>, ghost roots: seq<Node>,
        ghost shape: Shape)
    requires Represents(nodes, roots, shape) && path in nodes && node == nodes[path]
    modifies node
    ensures Represents(nodes, roots, shape.(marks := shape.marks + {path}))
  {
    ghost var view := View(nodes);
    Marked(view, nodes, roots, shape, path);
    NodesDiffer(nodes, roots, shape, path);
    node.terminal := true;
    assert View(nodes) == view[path := view[path].(terminal := true)];
  }

  lemma Marked(view: map<string, Info>, nodes: map<string, Node>, roots: seq<Node>, shape: Shape, path: string)
    requires IsTree(view, nodes, roots, shape) && path in view
    ensures IsTree(view[path := view[path].(terminal := true)], nodes, roots, shape.(marks := shape.marks + {path}))
  {
    var marked, after := view[path := view[path].(terminal := true)], shape.(marks := shape.marks + {path});
    forall p | p in marked
      ensures Holds(marked[p], p, nodes, after)
    {
      assert Holds(view[p], p, nodes, shape);
    }
  }

  // ----- one path inserted

  function Marking(shape: Shape, path: string, terminalPaths: set<string>): Shape {
    if path in terminalPaths then shape.(marks := shape.marks + {path}) else shape
  }

  /** One name of a chain: visited, and marked if it is terminal. */
  ghost predicate Visits(before: Shape, visited: Shape, after: Shape, above: string, path: string, segment: string,
                         terminalPaths: set<string>) {
    && path == Extended(above, segment) && Step(before, visited, above, path, segment)
    && after == Marking(visited, path, terminalPaths)
  }

  method Visit(parent: Node?, above: string, segment: string, terminalPaths: set<string>,
               nodes0: map<string, Node>, roots0: seq<Node>, ghost before: Shape, ghost visited: Shape,
                     ghost after: Shape)
    returns (node: Node, path: string, nodes: map<string, Node>, roots: seq<Node>)
    requires Visits(before, visited, after, above, Extended(above, segment), segment, terminalPaths)
    requires Represents(nodes0, roots0, before) && IsNodeOf(parent, above, nodes0)
    modifies nodes0.Values
    ensures path == Extended(above, segment) && IsNodeOf(node, path, nodes) && path != ""
    ensures Represents(nodes, roots, after) && Within(nodes, nodes0)
  {
    path := above;
    if path != "" {
      path := path + ".";
    }
    path := path + segment;
    assert path == Extended(above, segment);
    node, nodes, roots := FindOrCreate(nodes0, roots0, parent, segment, path, above, before, visited);
    if path in terminalPaths {
      MarkTerminal(node, path, nodes, roots, visited);
    }
  }

  /** The shapes that insertion of a chain goes through. */
  ghost predicate Walk(c: seq<string>, parts: seq<string>, shapes: seq<Shape>, visits: seq<Shape>,
        terminalPaths: set<string>) {
    |shapes| == |visits| + 1 == |c| + 1 == |parts| + 1
    && forall i :: 0 <= i < |c| ==> WalkAt(c, parts, i, shapes, visits[i], terminalPaths)
  }

  ghost predicate WalkAt(c: seq<string>, parts: seq<string>, i: nat, shapes: seq<Shape>, visited: Shape,
        terminalPaths: set<string>) {
    && i < |c| == |parts| == |shapes| - 1 && c[i] == Extended(Above(c, i), parts[i])
    && Visits(shapes[i], visited, shapes[i + 1], Above(c, i), c[i], parts[i], terminalPaths)
  }

  /** The loop over the segments of a path. Names in `terminalPaths` are marked on the way; the
      node of the path itself is returned. */
  method InsertPath(parts: seq<string>, terminalPaths: set<string>, nodes0: map<string, Node>, roots0: seq<Node>,
                    ghost c: seq<string>, ghost shapes: seq<Shape>, ghost visits: seq<Shape>)
    returns (parent: Node?, nodes: map<string, Node>, roots: seq<Node>)
    requires Walk(c, parts, shapes, visits, terminalPaths) && Represents(nodes0, roots0, shapes[0])
    modifies nodes0.Values
    ensures Represents(nodes, roots, shapes[|parts|]) && IsNodeOf(parent, Above(c, |parts|), nodes)
    ensures Within(nodes, nodes0)
  {
    hide Visits, Represents;
    nodes, roots, parent := nodes0, roots0, null;
    var currentPath := "";
    for i := 0 to |parts|
      invariant Within(nodes, nodes0)
      invariant currentPath == Above(c, i) && IsNodeOf(parent, currentPath, nodes)
      invariant Represents(nodes, roots, shapes[i])
    {
      assert WalkAt(c, parts, i, shapes, visits[i], terminalPaths);
      parent, currentPath, nodes, roots :=
        Visit(parent, currentPath, parts[i], terminalPaths, nodes, roots, shapes[i], visits[i], shapes[i + 1]);
    }
  }

  // ----- the shapes of a walk

  /** The paths of `terminal` that are names of the tree. */
  function MarksIn(terminal: set<string>, cs: seq<seq<string>>): set<string> {
    set p | p in terminal && p in Names(cs)
  }

  function ShapeAt(cs: seq<seq<string>>, c: seq<string>, i: nat, terminal: set<string>, marks: set<string>): Shape
    requires i <= |c|
  {
    Partial(cs, c, i, marks + MarksIn(terminal, cs + [c[..i]]))
  }

  function VisitedAt(cs: seq<seq<string>>, c: seq<string>, i: nat, terminal: set<string>, marks: set<string>): Shape
    requires i < |c|
  {
    Partial(cs, c, i + 1, marks + MarksIn(terminal, cs + [c[..i]]))
  }

  function Shapes(cs: seq<seq<string>>, c: seq<string>, terminal: set<string>, marks: set<string>): (r: seq<Shape>)
    ensures |r| == |c| + 1
  {
    seq(|c| + 1, i requires 0 <= i < |c| + 1 => ShapeAt(cs, c, i, terminal, marks))
  }

  function Visited(cs: seq<seq<string>>, c: seq<string>, terminal: set<string>, marks: set<string>): (r: seq<Shape>)
    ensures |r| == |c|
  {
    seq(|c|, i requires 0 <= i < |c| => VisitedAt(cs, c, i, terminal, marks))
  }

  lemma MarksStep(cs: seq<seq<string>>, c: seq<string>, i: nat, terminal: set<string>, marks: set<string>)
    requires i < |c|
    ensures ShapeAt(cs, c, i + 1, terminal, marks) == Marking(VisitedAt(cs, c, i, terminal, marks), c[i], terminal)
  {
    NamesStep(cs, c, i);
    var before, after := marks + MarksIn(terminal, cs + [c[..i]]), marks + MarksIn(terminal, cs + [c[..i + 1]]);
    assert after == if c[i] in terminal then before + {c[i]} else before;
  }

  /** Insertion of a chain into the tree of others is such a walk. */
  lemma ChainWalk(cs: seq<seq<string>>, parts: seq<string>, terminal: set<string>, marks: set<string>)
    requires AreSegments(parts) && Treelike(cs + [Chain(parts)]) && marks <= Names(cs)
    ensures var c := Chain(parts);
      Walk(c, parts, Shapes(cs, c, terminal, marks), Visited(cs, c, terminal, marks), terminal)
  {
    var c := Chain(parts);
    var shapes, visits := Shapes(cs, c, terminal, marks), Visited(cs, c, terminal, marks);
    hide ShapeAt, VisitedAt;
    forall i | 0 <= i < |c|
      ensures WalkAt(c, parts, i, shapes, visits[i], terminal)
    {
      ChainStep(parts, i);
      VisitOfChain(cs, c, parts[i], i, terminal, marks);
    }
  }

  lemma VisitOfChain(cs: seq<seq<string>>, c: seq<string>, part: string, i: nat, terminal: set<string>,
                     marks: set<string>)
    requires Treelike(cs + [c]) && marks <= Names(cs) && i < |c|
    requires c[i] == Extended(Above(c, i), part) && LastSegment(c[i]) == part
    ensures Visits(ShapeAt(cs, c, i, terminal, marks), VisitedAt(cs, c, i, terminal, marks),
        ShapeAt(cs, c, i + 1, terminal, marks), Above(c, i), c[i], part, terminal)
  {
    MarksStep(cs, c, i, terminal, marks);
    NamesSnoc(cs, c[..i]);
    PartialStep(cs, c, i, marks + MarksIn(terminal, cs + [c[..i]]));
    TreelikeParts(cs, c, i);
    NotEmpty(c, i);
  }

  lemma WalkEnds(cs: seq<seq<string>>, c: seq<string>, terminal: set<string>, marks: set<string>)
    ensures var shapes := Shapes(cs, c, terminal, marks);
      Same(ShapeOf(cs, marks + MarksIn(terminal, cs)), shapes[0])
      && shapes[|c|] == ShapeOf(cs + [c], marks + MarksIn(terminal, cs + [c]))
  {
    assert c[..|c|] == c && c[..0] == [];
    forall p
      ensures Children(cs + [[]], p) == Children(cs, p) && Names(cs + [[]]) == Names(cs)
    {
      NoNamesYet(cs, p);
    }
  }

  method Insert(parts: seq<string>, terminalPaths: set<string>, nodes0: map<string, Node>, roots0: seq<Node>,
                ghost cs: seq<seq<string>>, ghost marks: set<string>)
    returns (parent: Node?, nodes: map<string, Node>, roots: seq<Node>)
    requires AreSegments(parts) && Treelike(cs + [Chain(parts)]) && marks <= Names(cs)
    requires Represents(nodes0, roots0, ShapeOf(cs, marks + MarksIn(terminalPaths, cs)))
    modifies nodes0.Values
    ensures Represents(nodes, roots, ShapeOf(cs + [Chain(parts)], marks + MarksIn(terminalPaths, cs + [Chain(parts)])))
    ensures IsNodeOf(parent, Above(Chain(parts), |parts|), nodes) && Within(nodes, nodes0)
  {
    ghost var c := Chain(parts);
    ChainWalk(cs, parts, terminalPaths, marks);
    WalkEnds(cs, c, terminalPaths, marks);
    ghost var shapes := Shapes(cs, c, terminalPaths, marks);
    Found(View(nodes0), nodes0, roots0, ShapeOf(cs, marks + MarksIn(terminalPaths, cs)), shapes[0]);
    parent, nodes, roots := InsertPath(parts, terminalPaths, nodes0, roots0, c, shapes, Visited(cs, c, terminalPaths,
          marks));
  }

  // ----- the C++ builder

  lemma PathChainsStep(names: seq<string>, k: nat)
    requires k < |names|
    ensures PathChains(names[..k + 1]) == PathChains(names[..k]) + [Chain(Segments(names[k]))]
    ensures Treelike(PathChains(names[..k + 1])) && AreSegments(Segments(names[k]))
  {
    assert names[..k + 1] == names[..k] + [names[k]];
    PathChainsSnoc(names[..k], names[k]);
    PathChainsAreTreelike(names[..k + 1]);
    SegmentsAreSegments(names[k]);
  }

  /** The nodes of buildSchemaTreeRows. */
  method BuildNodes(schemaPaths: seq<string>, terminalPaths: set<string>)
    returns (nodes: map<string, Node>, roots: seq<Node>)
    ensures Represents(nodes, roots, ShapeOf(PathChains(schemaPaths), MarksIn(terminalPaths, PathChains(schemaPaths))))
    ensures fresh(nodes.Values)
  {
    nodes, roots := map[], [];
    for k := 0 to |schemaPaths|
      invariant fresh(nodes.Values)
      invariant Represents(nodes, roots, ShapeOf(PathChains(schemaPaths[..k]), {} + MarksIn(terminalPaths,
            PathChains(schemaPaths[..k]))))
    {
      PathChainsStep(schemaPaths, k);
      var parts := SplitSchemaPath(schemaPaths[k]);
      var last;
      last, nodes, roots := Insert(parts, terminalPaths, nodes, roots, PathChains(schemaPaths[..k]), {});
    }
    assert schemaPaths[..|schemaPaths|] == schemaPaths;
    var marks := MarksIn(terminalPaths, PathChains(schemaPaths));
    assert {} + marks == marks;
  }

  // ----- the Go builder

  method MetadataBuildSchemaTree(schemaPaths: seq<string>) returns (roots: seq<Node>, ghost nodes: map<string, Node>)
    ensures Represents(nodes, roots, ShapeOf(PathChains(schemaPaths), InputPaths(schemaPaths)))
    ensures fresh(nodes.Values)
  {
    var nodesByPath: map<string, Node>;
    nodesByPath, roots := map[], [];
    assert InputPaths([]) == {};
    for k := 0 to |schemaPaths|
      invariant fresh(nodesByPath.Values)
      invariant Represents(nodesByPath, roots, ShapeOf(PathChains(schemaPaths[..k]), InputPaths(schemaPaths[..k])))
    {
      nodesByPath, roots := AddSchema(schemaPaths, k, nodesByPath, roots);
    }
    assert schemaPaths[..|schemaPaths|] == schemaPaths;
    nodes := nodesByPath;
  }

  /** The paths that are terminal: the normalized names and, with expansion, their parents. */
  function MarkedPaths(names: seq<string>, expand: bool): set<string> {
    set p | p in Candidates(names, expand)
  }

  function InputPaths(names: seq<string>): set<string> {
    MarkedPaths(names, false)
  }

  lemma InputPathsStep(names: seq<string>, k: nat)
    requires k < |names|
    ensures InputPaths(names[..k + 1]) == InputPaths(names[..k]) + if Segments(names[k])
        == [] then {} else {Join(Segments(names[k]))}
  {
    assert names[..k + 1] == names[..k] + [names[k]];
    CandidatesSnoc(names[..k], names[k], false);
  }

  lemma {:induction false} InputPathsAreNames(names: seq<string>, k: nat)
    requires k <= |names|
    ensures InputPaths(names[..k]) <= Names(PathChains(names[..k]))
    decreases k
  {
    if k > 0 {
      InputPathsAreNames(names, k - 1);
      InputPathsStep(names, k - 1);
      PathChainsStep(names, k - 1);
      var segments := Segments(names[k - 1]);
      NamesSnoc(PathChains(names[..k - 1]), Chain(segments));
      if segments != [] {
        ChainEnds(segments);
        assert Chain(segments)[|segments| - 1] in Chain(segments);
      }
    }
  }

  /** One input of the Go builder: normalized, inserted, and its last node marked. */
  method AddSchema(schemaPaths: seq<string>, k: nat, nodes0: map<string, Node>, roots0: seq<Node>)
    returns (nodes: map<string, Node>, roots: seq<Node>)
    requires k < |schemaPaths|
    requires Represents(nodes0, roots0, ShapeOf(PathChains(schemaPaths[..k]), InputPaths(schemaPaths[..k])))
    modifies nodes0.Values
    ensures Represents(nodes, roots, ShapeOf(PathChains(schemaPaths[..k + 1]), InputPaths(schemaPaths[..k + 1])))
    ensures Within(nodes, nodes0)
  {
    hide Represents;
    ghost var cs, marks := PathChains(schemaPaths[..k]), InputPaths(schemaPaths[..k]);
    AddedSchema(schemaPaths, k);
    var normalized := NormalizeSchemaPath(schemaPaths[k]);
    if normalized == "" {
      nodes, roots := nodes0, roots0;
      StaysTree(nodes, roots, ShapeOf(cs, marks),
                ShapeOf(PathChains(schemaPaths[..k + 1]), InputPaths(schemaPaths[..k + 1])));
      return;
    }
    var parts := SplitSchemaPath(normalized);
    NoMarks(cs, marks);
    NoMarks(cs + [Chain(parts)], marks);
    var parent;
    parent, nodes, roots := Insert(parts, {}, nodes0, roots0, cs, marks);
    if parent != null {
      MarkTerminal(parent, normalized, nodes, roots, ShapeOf(cs + [Chain(parts)], marks));
    }
  }

  lemma StaysTree(nodes: map<string, Node>, roots: seq<Node>, before: Shape, after: Shape)
    requires Represents(nodes, roots, before) && Same(before, after)
    ensures Represents(nodes, roots, after)
  {
    Found(View(nodes), nodes, roots, before, after);
  }

  lemma NoMarks(cs: seq<seq<string>>, marks: set<string>)
    ensures marks + MarksIn({}, cs) == marks
  {
  }

  /** What one more input of the Go builder adds. */
  lemma AddedSchema(names: seq<string>, k: nat)
    requires k < |names|
    ensures var normalized := Normalized(names[k]);
      var parts := Segments(normalized);
      var cs, marks := PathChains(names[..k]), InputPaths(names[..k]);
      var cs1, marks1 := PathChains(names[..k + 1]), InputPaths(names[..k + 1]);
      && marks <= Names(cs)
      && (normalized == "" ==> Same(ShapeOf(cs, marks), ShapeOf(cs1, marks1)))
      && (normalized != "" ==>
            && AreSegments(parts) && Treelike(cs + [Chain(parts)]) && cs1 == cs + [Chain(parts)]
            && marks1 == marks + {normalized} && parts != [] && Above(Chain(parts), |parts|) == normalized)
  {
    var cs, segments := PathChains(names[..k]), Segments(names[k]);
    PathChainsStep(names, k);
    InputPathsStep(names, k);
    InputPathsAreNames(names, k);
    if segments != [] {
      SegmentsOfJoin(segments);
      ChainEnds(segments);
    } else {
      assert Chain(segments) == [];
      forall p
        ensures Children(cs + [[]], p) == Children(cs, p) && Names(cs + [[]]) == Names(cs)
      {
        NoNamesYet(cs, p);
      }
    }
  }

  // ----- rows

  /** appendRowsDepthFirst; `rows` is the vector that the recursion appends to. */
  method AppendRowsDepthFirst(node: Node, database: string, parentPath: string, topLevel: bool, rows0: seq<Row>,
                              ghost path: string, ghost nodes: map<string, Node>, ghost roots: seq<Node>,
                              ghost cs: seq<seq<string>>, ghost marks: set<string>)
    returns (rows: seq<Row>)
    requires Treelike(cs) && Represents(nodes, roots, ShapeOf(cs, marks)) && path in nodes && node == nodes[path]
    ensures rows == rows0 + RowsUnder(cs, marks, database, parentPath, path, topLevel)
    decreases Room(cs, path), 1, 0
  {
    NodeIs(nodes, roots, cs, marks, path);
    rows := rows0 + [Row(Schema, database, parentPath, node.fullPath, node.name, node.terminal, topLevel)];
    rows := AppendChildren(node.children, database, node.fullPath, false, rows, path, Children(cs, path),
                           nodes, roots, cs, marks);
  }

  lemma NodeIs(nodes: map<string, Node>, roots: seq<Node>, cs: seq<seq<string>>, marks: set<string>, path: string)
    requires Represents(nodes, roots, ShapeOf(cs, marks)) && path in nodes
    ensures var n := nodes[path];
      && n.fullPath == path && n.name == LastSegment(path) && (n.terminal <==> path in marks)
      && Linked(n.children, Children(cs, path), nodes)
  {
    assert Holds(View(nodes)[path], path, nodes, ShapeOf(cs, marks));
  }

  /** The loop over the children of a node, and over the roots. */
  method AppendChildren(children: seq<Node>, database: string, parentPath: string, topLevel: bool, rows0: seq<Row>,
                        ghost owner: string, ghost kids: seq<string>, ghost nodes: map<string, Node>,
                              ghost roots: seq<Node>,
                        ghost cs: seq<seq<string>>, ghost marks: set<string>)
    returns (rows: seq<Row>)
    requires Treelike(cs) && Represents(nodes, roots, ShapeOf(cs, marks))
    requires Kids(cs, owner, kids) && Linked(children, kids, nodes)
    ensures rows == rows0 + RowsOf(cs, marks, database, parentPath, owner, kids, topLevel)
    decreases Room(cs, owner), 0, |kids|
  {
    hide Represents;
    rows := rows0;
    assert kids[0..] == kids;
    for k := 0 to |children|
      invariant Kids(cs, owner, kids[k..])
      invariant rows + RowsOf(cs, marks, database, parentPath, owner, kids[k..], topLevel)
             == rows0 + RowsOf(cs, marks, database, parentPath, owner, kids, topLevel)
    {
      RowsOfStep(cs, marks, database, parentPath, owner, kids, k, topLevel, rows);
      rows := AppendRowsDepthFirst(children[k], database, parentPath, topLevel, rows, kids[k], nodes, roots, cs, marks);
    }
    assert rows + [] == rows;
  }

  lemma RowsOfStep(cs: seq<seq<string>>, marks: set<string>, database: string, parentPath: string, owner: string,
                   kids: seq<string>, k: nat, topLevel: bool, rows: seq<Row>)
    requires Treelike(cs) && Kids(cs, owner, kids) && k < |kids|
    ensures Kids(cs, owner, kids[k..]) && Kids(cs, owner, kids[k + 1..]) && Room(cs, kids[k]) < Room(cs, owner)
    ensures rows + RowsOf(cs, marks, database, parentPath, owner, kids[k..], topLevel)
         == rows + RowsUnder(cs, marks, database, parentPath, kids[k], topLevel)
            + RowsOf(cs, marks, database, parentPath, owner, kids[k + 1..], topLevel)
  {
    assert kids[k..][1..] == kids[k + 1..];
    ChildrenAreLonger(cs, owner, kids[k]);
    assert Kids(cs, owner, kids[k..]);
  }

  function DatabaseName(database: string): string {
    if Trim(database) == "" then "default" else Trim(database)
  }

  method FlattenTree(roots: seq<Node>, database: string, ghost nodes: map<string, Node>,
                     ghost cs: seq<seq<string>>, ghost marks: set<string>)
    returns (rows: seq<Row>)
    requires Treelike(cs) && Represents(nodes, roots, ShapeOf(cs, marks))
    ensures rows == TreeRows(cs, marks, DatabaseName(database))
  {
    var databaseName := TrimCopy(database);
    if databaseName == "" {
      databaseName := "default";
    }
    rows := [DatabaseRow(databaseName)];
    rows := AppendChildren(roots, databaseName, databaseName, true, rows, "", Children(cs, ""), nodes, roots, cs, marks);
  }

  lemma CandidatesAreNames(names: seq<string>, expand: bool)
    ensures var once := Once(Candidates(names, expand));
      MarksIn((set p | p in once), PathChains(once)) == MarkedPaths(names, expand)
  {
    var once := Once(Candidates(names, expand));
    forall p | p in Candidates(names, expand)
      ensures p in once && p in Names(PathChains(once))
    {
      OnceKeepsAll(Candidates(names, expand), p);
      CandidateIsName(names, expand, p);
      var k :| 0 <= k < |once| && once[k] == p;
      assert PathChains(once)[k] == Chain(Segments(p));
    }
    forall p | p in once
      ensures p in Candidates(names, expand)
    {
      OnceKeepsAll(Candidates(names, expand), p);
    }
  }

  /** Every path for navigation is the last name of its own chain. */
  lemma {:induction false} CandidateIsName(names: seq<string>, expand: bool, p: string)
    requires p in Candidates(names, expand)
    ensures p in Chain(Segments(p))
  {
    var n := |names| - 1;
    if p in Candidates(names[..n], expand) {
      CandidateIsName(names[..n], expand, p);
    } else {
      var segments := Segments(names[n]);
      SegmentsAreSegments(names[n]);
      var i := CandidateIsPrefix(names[n], expand, p);
      SegmentsOfJoin(segments[..i]);
      ChainEnds(segments[..i]);
    }
  }

  lemma CandidateIsPrefix(name: string, expand: bool, p: string) returns (i: nat)
    requires p in Candidate(name, expand)
    ensures 0 < i <= |Segments(name)| && p == Join(Segments(name)[..i])
  {
    var segments := Segments(name);
    if expand {
      var k :| 0 <= k < |segments| && Chain(segments)[k] == p;
      i := k + 1;
    } else {
      i := |segments|;
      assert segments[..i] == segments;
    }
  }

  /** buildSchemaTreeRows: the preorder of the tree over the names, terminal where a path for
      navigation ends. Parent expansion changes nothing but which paths those are. */
  method BuildSchemaTreeRows(names: seq<string>, database: string, expand: bool) returns (rows: seq<Row>)
    ensures Treelike(PathChains(names))
    ensures rows == TreeRows(PathChains(names), MarkedPaths(names, expand), DatabaseName(database))
  {
    var schemaPaths := SchemaPathsForNavigation(names, expand);
    var terminalPaths := set p | p in schemaPaths;
    var nodes, roots := BuildNodes(schemaPaths, terminalPaths);
    ghost var cs := PathChains(schemaPaths);
    CandidatesAreNames(names, expand);
    PathChainsAreTreelike(schemaPaths);
    PathChainsAreTreelike(names);
    NavigationHasSameChildren(names, expand);
    rows := FlattenTree(roots, database, nodes, cs, MarksIn(terminalPaths, cs));
    SameRows(cs, PathChains(names), MarksIn(terminalPaths, cs), DatabaseName(database));
  }

  /** The rows of the C++ builder, without expansion, are the preorder of the Go builder's tree. */
  method BuildersAgree(names: seq<string>, database: string) returns (rows: seq<Row>, ofGoTree: seq<Row>)
    ensures rows == ofGoTree
  {
    rows := BuildSchemaTreeRows(names, database, false);
    var roots;
    ghost var nodes;
    roots, nodes := MetadataBuildSchemaTree(names);
    ofGoTree := FlattenTree(roots, database, nodes, PathChains(names), InputPaths(names));
  }

  /** What the two builders list, in terms of the names they were given. */
  lemma RowsOfNames(names: seq<string>, expand: bool, database: string)
    ensures Treelike(PathChains(names))
    ensures var cs, marks := PathChains(names), MarkedPaths(names, expand);
      var rows := TreeRows(cs, marks, DatabaseName(database));
      && rows[0] == DatabaseRow(DatabaseName(database))
      && (forall k :: 0 < k < |rows| ==> RowIsRight(cs, marks, DatabaseName(database), rows[k]))
      && Distinct(PathsIn(rows[1..])) && (forall p :: p in PathsIn(rows[1..]) <==> p in Names(cs))
      && ParentsFirst({""}, rows)
      && (expand ==> marks == Names(cs))
  {
    var cs, marks := PathChains(names), MarkedPaths(names, expand);
    PathChainsAreTreelike(names);
    TreeRowsAreRight(cs, marks, DatabaseName(database));
    EachNameOnce(cs, marks, DatabaseName(database));
    TreeRowsParentsFirst(cs, marks, DatabaseName(database));
    if expand {
      ExpandedAreAllNames(names);
    }
  }

  lemma {:induction false} ExpandedAreAllNames(names: seq<string>)
    ensures MarkedPaths(names, true) == Names(PathChains(names))
  {
    if names != [] {
      var n := |names| - 1;
      assert names == names[..n] + [names[n]];
      ExpandedAreAllNames(names[..n]);
      PathChainsSnoc(names[..n], names[n]);
      NamesSnoc(PathChains(names[..n]), Chain(Segments(names[n])));
    }
  }
}
