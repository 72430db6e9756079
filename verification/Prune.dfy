/** Pruning a translation unit down to what one function needs: a worklist over the
    top-level items, where each name's declarations are pushed once. */
module Prune {
  import opened Prelude

  datatype TagKind = StructTag | UnionTag | EnumTag

  /** A node of the tree. A tag's body is empty when the tag is only mentioned. */
  datatype Node =
    | Id(name: string)
    | IdType(names: seq<string>)
    | Tag(kind: TagKind, tag: Option<string>, body: seq<Node>)
    | Enumerator(name: string, value: seq<Node>)
    | Ptr(of: Node)
    | Array(of: Node, dim: seq<Node>)
    | FuncType(of: Node, args: seq<Node>)
    | TypeDecl(declname: Option<string>, of: Node)
    | Decl(decl: Option<string>, of: Node, init: seq<Node>)
    | Typedef(name: string, of: Node)
    | FuncDef(name: string, parts: seq<Node>)
    | Pragma(words: seq<string>, asm: bool)
    | Other(parts: seq<Node>)

  function NameSet(name: Option<string>): set<string> {
    if name.Some? then {name.value} else {}
  }

  // ----- what an item declares -----

  /** The type inside pointers, arrays and a declarator. */
  function Inner(tp: Node): (r: Node)
    ensures r == tp || r < tp
  {
    match tp
    case Ptr(of) => Inner(of)
    case Array(of, _) => Inner(of)
    case TypeDecl(_, of) => of
    case _ => tp
  }

  /** The names a type declares: its tag, its enumerators and those of its members. */
  function TypeNames(tp: Node): set<string>
    decreases tp
  {
    var inner := Inner(tp);
    if inner.Tag? then NameSet(inner.tag) + MemberNames(inner.kind, inner.body, |inner.body|) else {}
  }

  /** The names declared by the first `k` members of a tag's body. */
  function MemberNames(kind: TagKind, body: seq<Node>, k: nat): set<string>
    requires k <= |body|
    decreases body, k
  {
    if k == 0 then {} else MemberNames(kind, body, k - 1) + MemberName(kind, body[k - 1])
  }

  function MemberName(kind: TagKind, member: Node): set<string>
    decreases member
  {
    if kind == EnumTag then (if member.Enumerator? then {member.name} else {})
    else if member.Decl? then TypeNames(member.of) else {}
  }

  /** Items that are kept in any case: the target function, definitions of variables, and
      everything that is no declaration. */
  predicate IsRoot(item: Node, isTarget: bool) {
    match item
    case Decl(_, _, init) => init != []
    case Typedef(_, _) => false
    case Pragma(_, asm) => !asm
    case FuncDef(_, _) => isTarget
    case _ => true
  }

  /** The names that lead to an item. */
  function Declared(item: Node, isTarget: bool): set<string> {
    match item
    case Decl(decl, of, init) => if init == [] then NameSet(decl) + TypeNames(of) else {}
    case Typedef(name, of) => {name} + TypeNames(of)
    case FuncDef(name, _) => if isTarget then {} else {name}
    case _ => {}
  }

  /** A typedef, and a declaration of a tag alone, for which a forward declaration can
      stand. */
  predicate IsForwardTypedef(item: Node) {
    item.Typedef? && item.of.TypeDecl? && item.of.of.Tag?
  }

  predicate IsForwardTag(item: Node) {
    item.Decl? && item.init == [] && item.of.Tag? && item.of.tag.Some?
  }

  // ----- what an item mentions -----

  /** What decides whether a pointer needs the full declaration of what it points to. */
  datatype Scope = Scope(accessed: set<string>, typedefs: set<string>, tags: set<string>)

  /** A pointer to a named thing that is nowhere accessed. */
  predicate PointsOnly(scope: Scope, of: Node) {
    && of.TypeDecl? && of.declname.Some? && of.declname.value !in scope.accessed
    && (match of.of
        case IdType(names) => forall i | 0 <= i < |names| :: names[i] in scope.typedefs
        case Tag(_, tag, body) => tag.Some? && tag.value in scope.tags && body == []
        case _ => false)
  }

  /** The names an item mentions, pointers that need no declaration aside. */
  function Mentioned(scope: Scope, node: Node): set<string>
    decreases node
  {
    match node
    case Id(name) => {name}
    case IdType(names) => set i | 0 <= i < |names| :: names[i]
    case Tag(_, tag, body) => (if body == [] then NameSet(tag) else {}) + AllMentioned(scope, body, |body|)
    case Enumerator(_, value) => AllMentioned(scope, value, |value|)
    case Ptr(of) => if PointsOnly(scope, of) then {} else Mentioned(scope, of)
    case Array(of, dim) => Mentioned(scope, of) + AllMentioned(scope, dim, |dim|)
    case FuncType(of, args) => Mentioned(scope, of) + AllMentioned(scope, args, |args|)
    case TypeDecl(declname, of) => NameSet(declname) + Mentioned(scope, of)
    case Decl(_, of, init) => Mentioned(scope, of) + AllMentioned(scope, init, |init|)
    case Typedef(_, of) => Mentioned(scope, of)
    case FuncDef(_, parts) => AllMentioned(scope, parts, |parts|)
    case Pragma(words, _) => set i | 0 <= i < |words| :: words[i]
    case Other(parts) => AllMentioned(scope, parts, |parts|)
  }

  function AllMentioned(scope: Scope, nodes: seq<Node>, k: nat): set<string>
    requires k <= |nodes|
    decreases nodes, k
  {
    if k == 0 then {} else AllMentioned(scope, nodes, k - 1) + Mentioned(scope, nodes[k - 1])
  }

  /** The names for which an item needs a forward declaration: typedef names, or tags. */
  function Forwards(scope: Scope, node: Node, tags: bool): set<string>
    decreases node
  {
    match node
    case Tag(_, _, body) => AllForwards(scope, body, |body|, tags)
    case Enumerator(_, value) => AllForwards(scope, value, |value|, tags)
    case Ptr(of) => if PointsOnly(scope, of) then PointedAt(of.of, tags) else Forwards(scope, of, tags)
    case Array(of, dim) => Forwards(scope, of, tags) + AllForwards(scope, dim, |dim|, tags)
    case FuncType(of, args) => Forwards(scope, of, tags) + AllForwards(scope, args, |args|, tags)
    case TypeDecl(_, of) => Forwards(scope, of, tags)
    case Decl(_, of, init) => Forwards(scope, of, tags) + AllForwards(scope, init, |init|, tags)
    case Typedef(_, of) => Forwards(scope, of, tags)
    case FuncDef(_, parts) => AllForwards(scope, parts, |parts|, tags)
    case Other(parts) => AllForwards(scope, parts, |parts|, tags)
    case _ => {}
  }

  function PointedAt(tp: Node, tags: bool): set<string> {
    match tp
    case IdType(names) => if tags then {} else set i | 0 <= i < |names| :: names[i]
    case Tag(_, tag, _) => if tags then NameSet(tag) else {}
    case _ => {}
  }

  function AllForwards(scope: Scope, nodes: seq<Node>, k: nat, tags: bool): set<string>
    requires k <= |nodes|
    decreases nodes, k
  {
    if k == 0 then {} else AllForwards(scope, nodes, k - 1, tags) + Forwards(scope, nodes[k - 1], tags)
  }

  /** The identifiers used in expressions, and the words of pragmas. */
  function Accessed(node: Node): set<string>
    decreases node
  {
    match node
    case Id(name) => {name}
    case IdType(_) => {}
    case Tag(_, _, body) => AllAccessed(body, |body|)
    case Enumerator(_, value) => AllAccessed(value, |value|)
    case Ptr(of) => Accessed(of)
    case Array(of, dim) => Accessed(of) + AllAccessed(dim, |dim|)
    case FuncType(of, args) => Accessed(of) + AllAccessed(args, |args|)
    case TypeDecl(_, of) => Accessed(of)
    case Decl(_, of, init) => Accessed(of) + AllAccessed(init, |init|)
    case Typedef(_, of) => Accessed(of)
    case FuncDef(_, parts) => AllAccessed(parts, |parts|)
    case Pragma(words, _) => set i | 0 <= i < |words| :: words[i]
    case Other(parts) => AllAccessed(parts, |parts|)
  }

  function AllAccessed(nodes: seq<Node>, k: nat): set<string>
    requires k <= |nodes|
    decreases nodes, k
  {
    if k == 0 then {} else AllAccessed(nodes, k - 1) + Accessed(nodes[k - 1])
  }

  /** Everything the classification of pointers depends on, for a whole unit. */
  function ScopeOf(ext: seq<Node>): Scope {
    Scope(AllAccessed(ext, |ext|),
          set i | 0 <= i < |ext| && IsForwardTypedef(ext[i]) :: ext[i].name,
          set i | 0 <= i < |ext| && IsForwardTag(ext[i]) :: ext[i].of.tag.value)
  }

  // ----- what has to be kept -----

  /** `s` contains the roots and, with an item, every item that declares a name it
      mentions. */
  ghost predicate Closed(ext: seq<Node>, target: nat, s: set<nat>) {
    && (forall i | 0 <= i < |ext| && IsRoot(ext[i], i == target) :: i in s)
    && (forall i, j | i in s && 0 <= i < |ext| && 0 <= j < |ext| && Leads(ext, target, i, j) :: j in s)
  }

  /** Item `i` mentions a name that item `j` declares. */
  ghost predicate Leads(ext: seq<Node>, target: nat, i: nat, j: nat)
    requires i < |ext| && j < |ext|
  {
    exists n :: n in Mentioned(ScopeOf(ext), ext[i]) && n in Declared(ext[j], j == target)
  }

  /** The least set that has to be kept. */
  ghost predicate Needed(ext: seq<Node>, target: nat, s: set<nat>) {
    && Closed(ext, target, s)
    && forall t: set<nat> | Closed(ext, target, t) :: s <= t
  }

  // ----- the worklist -----

  /** Where a name leads: to the positions of the items that declare it. */
  type Edges = map<string, seq<nat>>

  /** Position `j` is reached from one of these names. */
  ghost predicate Reached(edges: Edges, names: set<string>, j: nat) {
    exists n :: n in names && n in edges && j in edges[n]
  }

  /** Following two sets of names one after the other, dropping the edges that were used. */
  lemma ReachedInTurn(edges: Edges, m: set<string>, n: set<string>, j: nat)
    ensures Reached(edges, m + n, j) <==> Reached(edges, m, j) || Reached(edges - m, n, j)
    ensures edges - (m + n) == (edges - m) - n
  {
    if Reached(edges, m + n, j) && !Reached(edges, m, j) {
      var x :| x in m + n && x in edges && j in edges[x];
      assert x in n && x in edges - m;
    }
  }

  /** The graph left, the stack, and the names that need forward declarations. */
  datatype Work = Work(edges: Edges, todo: seq<nat>, typedefs: set<string>, tags: set<string>)

  /** `after` is `before` with some names followed and some forward declarations asked for. */
  ghost predicate Follows(before: Work, after: Work, names: set<string>, typedefs: set<string>, tags: set<string>) {
    && after.edges == before.edges - names
    && (forall j: nat :: j in after.todo <==> j in before.todo || Reached(before.edges, names, j))
    && (after.edges == before.edges ==> after.todo == before.todo)
    && after.typedefs == before.typedefs + typedefs && after.tags == before.tags + tags
  }

  lemma FollowsInTurn(a: Work, b: Work, c: Work, n1: set<string>, n2: set<string>, t1: set<string>, t2: set<string>,
                      g1: set<string>, g2: set<string>)
    requires Follows(a, b, n1, t1, g1) && Follows(b, c, n2, t2, g2)
    ensures Follows(a, c, n1 + n2, t1 + t2, g1 + g2)
  {
    forall j: nat ensures j in c.todo <==> j in a.todo || Reached(a.edges, n1 + n2, j) {
      ReachedInTurn(a.edges, n1, n2, j);
    }
    ReachedInTurn(a.edges, n1, n2, 0);
    if c.edges == a.edges {
      assert forall n | n in a.edges :: n in c.edges && n !in n1;
      assert b.edges == a.edges;
    }
  }

  lemma NothingFollowed(a: Work)
    ensures Follows(a, a, {}, {}, {})
  {
    assert a.edges - {} == a.edges;
  }

  // ----- what the worklist keeps true -----

  /** The graph of a unit: each name leads to exactly the items that declare it. */
  ghost predicate IsGraph(ext: seq<Node>, target: nat, edges: Edges) {
    && (forall n | n in edges :: forall j | j in edges[n] :: j < |ext| && n in Declared(ext[j], j == target))
    && (forall n, j: nat | j < |ext| && n in Declared(ext[j], j == target) :: n in edges && j in edges[n])
  }

  ghost predicate AreRoots(ext: seq<Node>, target: nat, roots: seq<nat>) {
    forall j: nat :: j in roots <==> j < |ext| && IsRoot(ext[j], j == target)
  }

  /** Every item seen had its names followed, what they lead to is seen or waiting, and
      nothing is seen or waiting that is not needed. */
  ghost predicate Searching(ext: seq<Node>, target: nat, graph: Edges, used: set<string>, keep: set<nat>, w: Work) {
    && w.edges == graph - used
    && (forall i | i in keep :: i < |ext| && Mentioned(ScopeOf(ext), ext[i]) <= used)
    && (forall j: nat | Reached(graph, used, j) :: j in keep || j in w.todo)
    && (forall i | 0 <= i < |ext| && IsRoot(ext[i], i == target) :: i in keep || i in w.todo)
    && (forall j | j in w.todo :: j < |ext|)
    && (forall s: set<nat> | Closed(ext, target, s) :: keep <= s && forall j | j in w.todo :: j in s)
  }

  /** The forward declarations asked for are those of the items seen. */
  ghost predicate Asking(ext: seq<Node>, keep: set<nat>, asked: set<string>, tags: bool) {
    forall n :: n in asked <==> exists i :: i in keep && i < |ext| && n in Forwards(ScopeOf(ext), ext[i], tags)
  }

  ghost predicate OnTrack(ext: seq<Node>, target: nat, graph: Edges, used: set<string>, keep: set<nat>, w: Work) {
    && IsGraph(ext, target, graph) && Searching(ext, target, graph, used, keep, w)
    && Asking(ext, keep, w.typedefs, false) && Asking(ext, keep, w.tags, true)
  }

  lemma SearchStarts(ext: seq<Node>, target: nat, graph: Edges, roots: seq<nat>)
    requires IsGraph(ext, target, graph) && AreRoots(ext, target, roots)
    ensures OnTrack(ext, target, graph, {}, {}, Work(graph, roots, {}, {}))
  {
    assert graph - {} == graph;
  }

  lemma TopIsItem(ext: seq<Node>, target: nat, graph: Edges, used: set<string>, keep: set<nat>, w: Work)
    requires OnTrack(ext, target, graph, used, keep, w) && w.todo != []
    ensures w.todo[|w.todo| - 1] < |ext|
  {
    assert w.todo[|w.todo| - 1] in w.todo;
  }

  /** An item already seen is dropped from the stack. */
  lemma SeenAgain(ext: seq<Node>, target: nat, graph: Edges, used: set<string>, keep: set<nat>, w: Work)
    requires OnTrack(ext, target, graph, used, keep, w)
    requires w.todo != [] && w.todo[|w.todo| - 1] in keep
    ensures OnTrack(ext, target, graph, used, keep, w.(todo := w.todo[..|w.todo| - 1]))
  {
    var rest := w.todo[..|w.todo| - 1];
    assert w.todo == rest + [w.todo[|w.todo| - 1]];
    assert forall j | j in rest :: j in w.todo;
  }

  /** A new item: its names lead only to what is needed. */
  lemma LeadsToNeeded(ext: seq<Node>, target: nat, graph: Edges, i: nat, j: nat, s: set<nat>)
    requires IsGraph(ext, target, graph) && Closed(ext, target, s) && i < |ext| && i in s
    requires Reached(graph, Mentioned(ScopeOf(ext), ext[i]), j)
    ensures j in s
  {
    var n :| n in Mentioned(ScopeOf(ext), ext[i]) && n in graph && j in graph[n];
    assert Leads(ext, target, i, j);
  }

  lemma SeenFirst(ext: seq<Node>, target: nat, graph: Edges, used: set<string>, keep: set<nat>, w: Work, i: nat,
                  after: Work)
    requires IsGraph(ext, target, graph) && Searching(ext, target, graph, used, keep, w)
    requires w.todo != [] && i == w.todo[|w.todo| - 1] && i < |ext|
    requires Follows(w.(todo := w.todo[..|w.todo| - 1]), after, Mentioned(ScopeOf(ext), ext[i]),
                     Forwards(ScopeOf(ext), ext[i], false), Forwards(ScopeOf(ext), ext[i], true))
    ensures Searching(ext, target, graph, used + Mentioned(ScopeOf(ext), ext[i]), keep + {i}, after)
  {
    var names := Mentioned(ScopeOf(ext), ext[i]);
    var rest := w.todo[..|w.todo| - 1];
    assert w.todo == rest + [i];
    forall j: nat ensures Reached(graph, used + names, j) <==> Reached(graph, used, j) || Reached(w.edges, names, j) {
      ReachedInTurn(graph, used, names, j);
    }
    ReachedInTurn(graph, used, names, 0);
    forall j: nat | Reached(w.edges, names, j) ensures Reached(graph, names, j) {
      var n :| n in names && n in w.edges && j in w.edges[n];
      assert n in graph && graph[n] == w.edges[n];
    }
    forall s: set<nat> | Closed(ext, target, s)
      ensures keep + {i} <= s && forall j | j in after.todo :: j in s
    {
      forall j: nat | Reached(graph, names, j) ensures j in s {
        LeadsToNeeded(ext, target, graph, i, j, s);
      }
    }
    forall j: nat | j in after.todo ensures j < |ext| {
      if Reached(graph, names, j) {
        var n :| n in names && n in graph && j in graph[n];
      } else {
        assert j in rest && j in w.todo;
      }
    }
  }

  lemma AskingGrows(ext: seq<Node>, keep: set<nat>, asked: set<string>, i: nat, tags: bool)
    requires Asking(ext, keep, asked, tags) && i < |ext|
    ensures Asking(ext, keep + {i}, asked + Forwards(ScopeOf(ext), ext[i], tags), tags)
  {
    var scope, grown, more := ScopeOf(ext), keep + {i}, asked + Forwards(ScopeOf(ext), ext[i], tags);
    forall n ensures n in more <==> exists k :: k in grown && k < |ext| && n in Forwards(scope, ext[k], tags) {
      if n in asked {
        var k :| k in keep && k < |ext| && n in Forwards(scope, ext[k], tags);
        assert k in grown;
      } else {
        assert i in grown;
      }
    }
  }

  /** Everything that visiting a new item preserves, and why the search ends. */
  lemma ItemSeen(ext: seq<Node>, target: nat, graph: Edges, used: set<string>, keep: set<nat>, w: Work, i: nat,
                 after: Work)
    requires OnTrack(ext, target, graph, used, keep, w)
    requires w.todo != [] && i == w.todo[|w.todo| - 1] && i < |ext|
    requires Follows(w.(todo := w.todo[..|w.todo| - 1]), after, Mentioned(ScopeOf(ext), ext[i]),
                     Forwards(ScopeOf(ext), ext[i], false), Forwards(ScopeOf(ext), ext[i], true))
    ensures OnTrack(ext, target, graph, used + Mentioned(ScopeOf(ext), ext[i]), keep + {i}, after)
    ensures |after.edges| < |w.edges| || (after.edges == w.edges && |after.todo| < |w.todo|)
  {
    SeenFirst(ext, target, graph, used, keep, w, i, after);
    AskingGrows(ext, keep, w.typedefs, i, false);
    AskingGrows(ext, keep, w.tags, i, true);
    FewerEdges(w.edges, after.edges, Mentioned(ScopeOf(ext), ext[i]));
  }

  /** With nothing waiting, what was seen is exactly what is needed. */
  lemma SearchEnds(ext: seq<Node>, target: nat, graph: Edges, used: set<string>, keep: set<nat>, w: Work)
    requires OnTrack(ext, target, graph, used, keep, w) && w.todo == []
    ensures Needed(ext, target, keep) && Asking(ext, keep, w.typedefs, false) && Asking(ext, keep, w.tags, true)
  {
    forall i, j | i in keep && 0 <= i < |ext| && 0 <= j < |ext| && Leads(ext, target, i, j) ensures j in keep {
      var n :| n in Mentioned(ScopeOf(ext), ext[i]) && n in Declared(ext[j], j == target);
      assert n in graph && j in graph[n] && n in used;
      assert Reached(graph, used, j);
    }
  }

  class Pruner {
    const scope: Scope
    var edges: Edges
    var todo: seq<nat>
    var needTypedefs: set<string>
    var needTags: set<string>

    constructor (scope: Scope, edges: Edges, roots: seq<nat>)
      ensures this.scope == scope && Now() == Work(edges, roots, {}, {})
    {
      this.scope, this.edges, todo := scope, edges, roots;
      needTypedefs, needTags := {}, {};
    }

    function Now(): Work
      reads this
    {
      Work(edges, todo, needTypedefs, needTags)
    }

    /** A name's declarations are pushed, and its edges deleted. */
    method AddName(name: string)
      modifies this
      ensures Follows(old(Now()), Now(), {name}, {}, {})
    {
      if name in edges {
        todo := todo + edges[name];
        edges := edges - {name};
      }
    }

    method AddNames(names: seq<string>)
      modifies this
      ensures Follows(old(Now()), Now(), set i | 0 <= i < |names| :: names[i], {}, {})
    {
      ghost var start, done := Now(), {};
      NothingFollowed(start);
      for k := 0 to |names|
        invariant done == set i | 0 <= i < k :: names[i]
        invariant Follows(start, Now(), done, {}, {})
      {
        ghost var before := Now();
        AddName(names[k]);
        FollowsInTurn(start, before, Now(), done, {names[k]}, {}, {}, {}, {});
        done := done + {names[k]};
      }
    }

    method AddOptional(name: Option<string>)
      modifies this
      ensures Follows(old(Now()), Now(), NameSet(name), {}, {})
    {
      if name.Some? {
        AddName(name.value);
      } else {
        NothingFollowed(Now());
      }
    }

    /** Searches a node for names. */
    method Visit(node: Node)
      modifies this
      ensures Follows(old(Now()), Now(), Mentioned(scope, node),
                      Forwards(scope, node, false), Forwards(scope, node, true))
      decreases node, 1
    {
      ghost var start := Now();
      match node
      case Id(name) =>
        AddName(name);
      case IdType(names) =>
        AddNames(names);
      case Tag(_, tag, body) =>
        if body == [] {
          AddOptional(tag);
        } else {
          VisitAll(body);
        }
      case Enumerator(_, value) =>
        VisitAll(value);
      case Ptr(of) =>
        if PointsOnly(scope, of) {
          AskForward(of.of);
        } else {
          Visit(of);
        }
      case Array(_, dim) =>
        VisitWith(node, dim);
      case FuncType(_, args) =>
        VisitWith(node, args);
      case TypeDecl(declname, of) =>
        AddOptional(declname);
        ghost var mid := Now();
        Visit(of);
        FollowsInTurn(start, mid, Now(), NameSet(declname), Mentioned(scope, of),
                      {}, Forwards(scope, of, false), {}, Forwards(scope, of, true));
      case Decl(_, _, init) =>
        VisitWith(node, init);
      case Typedef(_, of) =>
        Visit(of);
      case FuncDef(_, parts) =>
        VisitAll(parts);
      case Pragma(words, _) =>
        AddNames(words);
      case Other(parts) =>
        VisitAll(parts);
    }

    /** A pointer for which a forward declaration will do. */
    method AskForward(tp: Node)
      requires tp.IdType? || tp.Tag?
      modifies this
      ensures Follows(old(Now()), Now(), {}, PointedAt(tp, false), PointedAt(tp, true))
    {
      NothingFollowed(Now());
      if tp.IdType? {
        needTypedefs := needTypedefs + (set i | 0 <= i < |tp.names| :: tp.names[i]);
      } else if tp.tag.Some? {
        needTags := needTags + {tp.tag.value};
      }
    }

    /** A node with a type and further parts. */
    method VisitWith(node: Node, parts: seq<Node>)
      requires (node.Array? && parts == node.dim) || (node.FuncType? && parts == node.args)
            || (node.Decl? && parts == node.init)
      modifies this
      ensures Follows(old(Now()), Now(), Mentioned(scope, node),
                      Forwards(scope, node, false), Forwards(scope, node, true))
      decreases node, 0
    {
      ghost var start, of := Now(), node.of;
      Visit(node.of);
      ghost var mid := Now();
      VisitAll(parts);
      FollowsInTurn(start, mid, Now(), Mentioned(scope, of), AllMentioned(scope, parts, |parts|),
                    Forwards(scope, of, false), AllForwards(scope, parts, |parts|, false),
                    Forwards(scope, of, true), AllForwards(scope, parts, |parts|, true));
    }

    method VisitAll(nodes: seq<Node>)
      modifies this
      ensures Follows(old(Now()), Now(), AllMentioned(scope, nodes, |nodes|),
                      AllForwards(scope, nodes, |nodes|, false), AllForwards(scope, nodes, |nodes|, true))
      decreases nodes
    {
      ghost var start := Now();
      NothingFollowed(start);
      for k := 0 to |nodes|
        invariant Follows(start, Now(), AllMentioned(scope, nodes, k),
                          AllForwards(scope, nodes, k, false), AllForwards(scope, nodes, k, true))
      {
        ghost var before := Now();
        Visit(nodes[k]);
        FollowsInTurn(start, before, Now(), AllMentioned(scope, nodes, k), Mentioned(scope, nodes[k]),
                      AllForwards(scope, nodes, k, false), Forwards(scope, nodes[k], false),
                      AllForwards(scope, nodes, k, true), Forwards(scope, nodes[k], true));
      }
    }

    /** Takes one position off the stack and visits its item if it is new. */
    method Advance(ext: seq<Node>, keep: set<nat>) returns (kept: set<nat>)
      requires todo != [] && todo[|todo| - 1] < |ext|
      modifies this
      ensures var i, w := old(todo[|todo| - 1]), old(Now().(todo := todo[..|todo| - 1]));
              if i in keep then kept == keep && Now() == w
              else kept == keep + {i}
                   && Follows(w, Now(), Mentioned(scope, ext[i]), Forwards(scope, ext[i], false),
                              Forwards(scope, ext[i], true))
    {
      var i := todo[|todo| - 1];
      todo := todo[..|todo| - 1];
      kept := keep;
      if i !in keep {
        kept := kept + {i};
        Visit(ext[i]);
      }
    }

    /** The worklist: visits every item it comes to, once. */
    method Collect(ext: seq<Node>, ghost target: nat) returns (keep: set<nat>)
      requires scope == ScopeOf(ext) && IsGraph(ext, target, edges) && AreRoots(ext, target, todo)
      requires needTypedefs == {} && needTags == {}
      modifies this
      ensures Needed(ext, target, keep)
      ensures Asking(ext, keep, needTypedefs, false) && Asking(ext, keep, needTags, true)
    {
      keep := {};
      ghost var graph, used := edges, {};
      SearchStarts(ext, target, edges, todo);
      while todo != []
        invariant OnTrack(ext, target, graph, used, keep, Now())
        decreases |edges|, |todo|
      {
        ghost var w := Now();
        ghost var i := todo[|todo| - 1];
        TopIsItem(ext, target, graph, used, keep, w);
        ghost var was := keep;
        keep := Advance(ext, keep);
        if i in was {
          SeenAgain(ext, target, graph, used, was, w);
        } else {
          ItemSeen(ext, target, graph, used, was, w, i, Now());
          used := used + Mentioned(scope, ext[i]);
        }
      }
      SearchEnds(ext, target, graph, used, keep, Now());
    }
  }

  lemma FewerEdges(before: Edges, after: Edges, names: set<string>)
    requires after == before - names
    ensures after == before || |after| < |before|
  {
    assert after.Keys == before.Keys - names;
    if after.Keys != before.Keys {
      FewerKeys(after.Keys, before.Keys);
    } else {
      assert forall n | n in before :: n in after && after[n] == before[n];
    }
  }

  lemma FewerKeys(a: set<string>, b: set<string>)
    requires a <= b && a != b
    ensures |a| < |b|
  {
    var x :| x in b && x !in a;
    assert a <= b - {x};
    SubsetSize(a, b - {x});
  }

  lemma {:induction false} SubsetSize(a: set<string>, b: set<string>)
    requires a <= b
    ensures |a| <= |b|
  {
    if a != {} {
      var x :| x in a;
      SubsetSize(a - {x}, b - {x});
    }
  }

  // ----- building the graph -----

  ghost predicate Leading(edges: Edges, n: string, j: nat) {
    n in edges && j in edges[n]
  }

  /** `after` is `before` with position `i` added under some names. */
  ghost predicate Added(before: Edges, after: Edges, names: set<string>, i: nat) {
    forall n, j: nat :: Leading(after, n, j) <==> Leading(before, n, j) || (j == i && n in names)
  }

  lemma AddedInTurn(a: Edges, b: Edges, c: Edges, m: set<string>, n: set<string>, i: nat)
    requires Added(a, b, m, i) && Added(b, c, n, i)
    ensures Added(a, c, m + n, i)
  {
    forall x, j: nat ensures Leading(c, x, j) <==> Leading(a, x, j) || (j == i && x in m + n) {
      assert Leading(c, x, j) <==> Leading(b, x, j) || (j == i && x in n);
      assert Leading(b, x, j) <==> Leading(a, x, j) || (j == i && x in m);
    }
  }

  /** The graph of the first `k` items. */
  ghost predicate GraphTo(ext: seq<Node>, target: nat, edges: Edges, k: nat) {
    forall n, j: nat :: Leading(edges, n, j) <==> j < k && j < |ext| && n in Declared(ext[j], j == target)
  }

  lemma GraphGrows(ext: seq<Node>, target: nat, before: Edges, after: Edges, k: nat)
    requires GraphTo(ext, target, before, k) && k < |ext|
    requires Added(before, after, Declared(ext[k], k == target), k)
    ensures GraphTo(ext, target, after, k + 1)
  {
    forall n, j: nat
      ensures Leading(after, n, j) <==> j < k + 1 && j < |ext| && n in Declared(ext[j], j == target)
    {
      assert Leading(after, n, j) <==> Leading(before, n, j) || (j == k && n in Declared(ext[k], k == target));
      assert Leading(before, n, j) <==> j < k && j < |ext| && n in Declared(ext[j], j == target);
    }
  }

  lemma GraphDone(ext: seq<Node>, target: nat, edges: Edges)
    requires GraphTo(ext, target, edges, |ext|)
    ensures IsGraph(ext, target, edges)
  {
    forall n | n in edges
      ensures forall j | j in edges[n] :: j < |ext| && n in Declared(ext[j], j == target)
    {
      forall j | j in edges[n] ensures j < |ext| && n in Declared(ext[j], j == target) {
        assert Leading(edges, n, j);
      }
    }
    forall n, j: nat | j < |ext| && n in Declared(ext[j], j == target) ensures n in edges && j in edges[n] {
      assert Leading(edges, n, j);
    }
  }

  class Graph {
    var edges: Edges
    var roots: seq<nat>

    constructor ()
      ensures edges == map[] && roots == []
    {
      edges, roots := map[], [];
    }

    method AddEdge(n: string, i: nat)
      modifies this`edges
      ensures Added(old(edges), edges, {n}, i)
    {
      edges := edges[n := (if n in edges then edges[n] else []) + [i]];
    }

    method AddOptional(name: Option<string>, i: nat)
      modifies this`edges
      ensures Added(old(edges), edges, NameSet(name), i)
    {
      if name.Some? {
        AddEdge(name.value, i);
      }
    }

    method AddTypeEdges(type0: Node, i: nat)
      modifies this`edges
      ensures Added(old(edges), edges, TypeNames(type0), i)
      decreases type0
    {
      var tp := type0;
      while tp.Ptr? || tp.Array?
        invariant Inner(tp) == Inner(type0)
        decreases tp
      {
        tp := tp.of;
      }
      if tp.FuncType? {
        return;
      }
      var inner := if tp.TypeDecl? then tp.of else tp;
      if inner.Tag? {
        ghost var start := edges;
        AddOptional(inner.tag, i);
        ghost var mid := edges;
        AddMemberEdges(inner.kind, inner.body, i);
        AddedInTurn(start, mid, edges, NameSet(inner.tag), MemberNames(inner.kind, inner.body, |inner.body|), i);
      }
    }

    method AddMemberEdges(kind: TagKind, body: seq<Node>, i: nat)
      modifies this`edges
      ensures Added(old(edges), edges, MemberNames(kind, body, |body|), i)
      decreases body
    {
      ghost var start := edges;
      for k := 0 to |body|
        invariant Added(start, edges, MemberNames(kind, body, k), i)
      {
        ghost var before := edges;
        AddMember(kind, body[k], i);
        AddedInTurn(start, before, edges, MemberNames(kind, body, k), MemberName(kind, body[k]), i);
      }
    }

    method AddMember(kind: TagKind, member: Node, i: nat)
      modifies this`edges
      ensures Added(old(edges), edges, MemberName(kind, member), i)
      decreases member
    {
      if kind == EnumTag {
        if member.Enumerator? {
          AddEdge(member.name, i);
        }
      } else if member.Decl? {
        AddTypeEdges(member.of, i);
      }
    }

    /** One item: the names that lead to it, or its place among the roots. */
    method AddItem(item: Node, i: nat, isTarget: bool)
      modifies this
      ensures Added(old(edges), edges, Declared(item, isTarget), i)
      ensures roots == old(roots) + if IsRoot(item, isTarget) then [i] else []
    {
      ghost var start := edges;
      if item.Decl? && item.init == [] {
        AddOptional(item.decl, i);
        ghost var mid := edges;
        AddTypeEdges(item.of, i);
        AddedInTurn(start, mid, edges, NameSet(item.decl), TypeNames(item.of), i);
      } else if item.Typedef? {
        AddEdge(item.name, i);
        ghost var mid := edges;
        AddTypeEdges(item.of, i);
        AddedInTurn(start, mid, edges, {item.name}, TypeNames(item.of), i);
      } else if item.Pragma? && item.asm {
      } else if !isTarget && item.FuncDef? {
        AddEdge(item.name, i);
      } else {
        roots := roots + [i];
      }
    }

    method Build(ext: seq<Node>, target: nat)
      requires edges == map[] && roots == []
      modifies this
      ensures IsGraph(ext, target, edges) && AreRoots(ext, target, roots)
    {
      for i := 0 to |ext|
        invariant GraphTo(ext, target, edges, i)
        invariant forall j: nat :: j in roots <==> j < i && IsRoot(ext[j], j == target)
      {
        ghost var before := edges;
        AddItem(ext[i], i, i == target);
        GraphGrows(ext, target, before, edges, i);
      }
      GraphDone(ext, target, edges);
    }
  }

  // ----- the new list of items -----

  function Digits(n: nat): string {
    if n < 10 then ["0123456789"[n]] else Digits(n / 10) + ["0123456789"[n % 10]]
  }

  /** What was asked for: the items kept, and names to declare forward. */
  datatype Plan = Plan(keep: set<nat>, typedefs: set<string>, tags: set<string>)

  predicate ForwardsTypedef(ext: seq<Node>, plan: Plan, i: nat)
    requires i < |ext|
  {
    i !in plan.keep && ext[i].Typedef? && ext[i].name in plan.typedefs
  }

  predicate ForwardsTag(ext: seq<Node>, plan: Plan, i: nat)
    requires i < |ext|
  {
    i !in plan.keep && ext[i].Decl? && ext[i].of.Tag? && ext[i].of.tag.Some? && ext[i].of.tag.value in plan.tags
  }

  /** How many of the first `k` items got an invented tag. */
  function Invented(ext: seq<Node>, plan: Plan, k: nat): nat
    requires k <= |ext|
  {
    if k == 0 then 0
    else Invented(ext, plan, k - 1)
         + if ForwardsTypedef(ext, plan, k - 1) && IsForwardTypedef(ext[k - 1]) && ext[k - 1].of.of.tag.None? then 1
           else 0
  }

  /** A tag mentioned without its body; an anonymous one is given a name. */
  function Bodyless(tp: Node, invented: nat): Node
    requires tp.Tag?
  {
    tp.(tag := if tp.tag.Some? then tp.tag else Some("_PermuterTemp" + Digits(invented)), body := [])
  }

  /** What becomes of item `i`. */
  function NewItem(ext: seq<Node>, plan: Plan, i: nat): Option<Node>
    requires i < |ext|
  {
    var item := ext[i];
    if i in plan.keep then Some(item)
    else if ForwardsTypedef(ext, plan, i) then
      if IsForwardTypedef(item) then
        Some(Typedef(item.name, TypeDecl(item.of.declname, Bodyless(item.of.of, Invented(ext, plan, i) + 1))))
      else None
    else if ForwardsTag(ext, plan, i) then Some(Decl(item.decl, item.of.(body := []), item.init))
    else None
  }

  /** The new list; each item comes with the position it had. */
  function Emitted(ext: seq<Node>, plan: Plan, k: nat): seq<(nat, Node)>
    requires k <= |ext|
  {
    if k == 0 then []
    else
      var item := NewItem(ext, plan, k - 1);
      if item.Some? then Emitted(ext, plan, k - 1) + [(k - 1, item.value)] else Emitted(ext, plan, k - 1)
  }

  /** A typedef name stands for one type only. */
  predicate OneTypedefEach(ext: seq<Node>) {
    forall i, j | && 0 <= i < |ext| && 0 <= j < |ext|
                  && ext[i].Typedef? && ext[j].Typedef? && ext[i].name == ext[j].name ::
      IsForwardTypedef(ext[i]) == IsForwardTypedef(ext[j])
  }

  /** Order is kept, and the list holds exactly the items that become something. */
  lemma {:induction false} EmittedMeans(ext: seq<Node>, plan: Plan, k: nat)
    requires k <= |ext|
    ensures var out := Emitted(ext, plan, k);
            && (forall a | 0 <= a < |out| :: out[a].0 < k && NewItem(ext, plan, out[a].0) == Some(out[a].1))
            && (forall a, b | 0 <= a < b < |out| :: out[a].0 < out[b].0)
            && (forall i | 0 <= i < k && NewItem(ext, plan, i).Some? :: (i, NewItem(ext, plan, i).value) in out)
  {
    if k > 0 {
      EmittedMeans(ext, plan, k - 1);
    }
  }

  /** Forward declarations are only asked for where one can stand. */
  lemma {:induction false} ForwardsInScope(scope: Scope, node: Node)
    ensures Forwards(scope, node, false) <= scope.typedefs && Forwards(scope, node, true) <= scope.tags
    decreases node, 1
  {
    match node
    case Tag(_, _, body) =>
      AllForwardsInScope(scope, body, |body|);
    case Enumerator(_, value) =>
      AllForwardsInScope(scope, value, |value|);
    case Ptr(of) =>
      ForwardsInScope(scope, of);
    case Array(of, dim) =>
      ForwardsInScope(scope, of);
      AllForwardsInScope(scope, dim, |dim|);
    case FuncType(of, args) =>
      ForwardsInScope(scope, of);
      AllForwardsInScope(scope, args, |args|);
    case TypeDecl(_, of) =>
      ForwardsInScope(scope, of);
    case Decl(_, of, init) =>
      ForwardsInScope(scope, of);
      AllForwardsInScope(scope, init, |init|);
    case Typedef(_, of) =>
      ForwardsInScope(scope, of);
    case FuncDef(_, parts) =>
      AllForwardsInScope(scope, parts, |parts|);
    case Other(parts) =>
      AllForwardsInScope(scope, parts, |parts|);
    case _ =>
  }

  lemma {:induction false} AllForwardsInScope(scope: Scope, nodes: seq<Node>, k: nat)
    requires k <= |nodes|
    ensures AllForwards(scope, nodes, k, false) <= scope.typedefs && AllForwards(scope, nodes, k, true) <= scope.tags
    decreases nodes, k
  {
    if k > 0 {
      AllForwardsInScope(scope, nodes, k - 1);
      ForwardsInScope(scope, nodes[k - 1]);
    }
  }

  /** Every pointer-only mention in a kept item is still served: some item that declares
      the typedef name is in the new list, whole or as a forward declaration. */
  lemma TypedefsAreServed(ext: seq<Node>, plan: Plan, i: nat, n: string)
    requires OneTypedefEach(ext) && i in plan.keep && i < |ext| && n in Forwards(ScopeOf(ext), ext[i], false)
    requires Asking(ext, plan.keep, plan.typedefs, false)
    ensures exists j :: 0 <= j < |ext| && ext[j].Typedef? && ext[j].name == n && NewItem(ext, plan, j).Some?
                        && NewItem(ext, plan, j).value.Typedef? && NewItem(ext, plan, j).value.name == n
  {
    ForwardsInScope(ScopeOf(ext), ext[i]);
    var j :| 0 <= j < |ext| && IsForwardTypedef(ext[j]) && ext[j].name == n;
    assert NewItem(ext, plan, j).Some?;
  }

  lemma TagsAreServed(ext: seq<Node>, plan: Plan, i: nat, n: string)
    requires i in plan.keep && i < |ext| && n in Forwards(ScopeOf(ext), ext[i], true)
    requires Asking(ext, plan.keep, plan.tags, true)
    ensures exists j :: 0 <= j < |ext| && IsForwardTag(ext[j]) && ext[j].of.tag == Some(n)
                        && NewItem(ext, plan, j).Some?
                        && NewItem(ext, plan, j).value.Decl? && NewItem(ext, plan, j).value.of.Tag?
                        && NewItem(ext, plan, j).value.of.tag == Some(n)
  {
    ForwardsInScope(ScopeOf(ext), ext[i]);
    var j :| 0 <= j < |ext| && IsForwardTag(ext[j]) && ext[j].of.tag.value == n;
    assert NewItem(ext, plan, j).Some?;
  }

  /** The assertions made while declaring forward never fail. */
  lemma ForwardTypedefsFit(ext: seq<Node>, plan: Plan, j: nat)
    requires OneTypedefEach(ext) && Asking(ext, plan.keep, plan.typedefs, false)
    requires j < |ext| && ForwardsTypedef(ext, plan, j)
    ensures IsForwardTypedef(ext[j]) && ext[j].name in ScopeOf(ext).typedefs
  {
    var i :| i in plan.keep && i < |ext| && ext[j].name in Forwards(ScopeOf(ext), ext[i], false);
    ForwardsInScope(ScopeOf(ext), ext[i]);
    var k :| 0 <= k < |ext| && IsForwardTypedef(ext[k]) && ext[k].name == ext[j].name;
  }

  lemma ForwardTagsFit(ext: seq<Node>, plan: Plan, j: nat)
    requires Asking(ext, plan.keep, plan.tags, true) && j < |ext| && ForwardsTag(ext, plan, j)
    ensures ext[j].of.tag.value in ScopeOf(ext).tags
  {
    var i :| i in plan.keep && i < |ext| && ext[j].of.tag.value in Forwards(ScopeOf(ext), ext[i], true);
    ForwardsInScope(ScopeOf(ext), ext[i]);
  }

  /** Builds the new list. The assertions on the way are those of the code. */
  method Emit(ext: seq<Node>, plan: Plan) returns (out: seq<(nat, Node)>)
    requires OneTypedefEach(ext)
    requires Asking(ext, plan.keep, plan.typedefs, false) && Asking(ext, plan.keep, plan.tags, true)
    ensures out == Emitted(ext, plan, |ext|)
  {
    out := [];
    var tempId := 0;
    for i := 0 to |ext|
      invariant out == Emitted(ext, plan, i) && tempId == Invented(ext, plan, i)
    {
      var item := ext[i];
      if i in plan.keep {
      } else if item.Typedef? && item.name in plan.typedefs {
        ForwardTypedefsFit(ext, plan, i);
        assert item.name in ScopeOf(ext).typedefs && item.of.TypeDecl? && item.of.of.Tag?;
        var tp := item.of.of;
        if tp.tag.None? {
          tempId := tempId + 1;
          tp := tp.(tag := Some("_PermuterTemp" + Digits(tempId)));
        }
        item := Typedef(item.name, TypeDecl(item.of.declname, tp.(body := [])));
      } else if item.Decl? && item.of.Tag? && item.of.tag.Some? && item.of.tag.value in plan.tags {
        ForwardTagsFit(ext, plan, i);
        assert item.of.tag.value in ScopeOf(ext).tags;
        item := Decl(item.decl, item.of.(body := []), item.init);
      } else {
        continue;
      }
      out := out + [(i, item)];
    }
  }

  /** The whole pruning: what is kept is exactly what is needed, in the old order, and the
      target function is where the result says. */
  method PruneAst(ext: seq<Node>, target: nat) returns (out: seq<(nat, Node)>, index: nat, ghost plan: Plan)
    requires target < |ext| && ext[target].FuncDef? && OneTypedefEach(ext)
    ensures Needed(ext, target, plan.keep)
    ensures Asking(ext, plan.keep, plan.typedefs, false) && Asking(ext, plan.keep, plan.tags, true)
    ensures out == Emitted(ext, plan, |ext|)
    ensures index < |out| && out[index] == (target, ext[target])
  {
    var graph := new Graph();
    graph.Build(ext, target);
    var pruner := new Pruner(ScopeOf(ext), graph.edges, graph.roots);
    var keep := pruner.Collect(ext, target);
    plan := Plan(keep, pruner.needTypedefs, pruner.needTags);
    out := Emit(ext, Plan(keep, pruner.needTypedefs, pruner.needTags));
    EmittedMeans(ext, plan, |ext|);
    assert target in keep && NewItem(ext, plan, target) == Some(ext[target]);
    ghost var at :| 0 <= at < |out| && out[at] == (target, ext[target]);
    index := 0;
    while out[index].0 != target
      invariant index <= at
      decreases at - index
    {
      index := index + 1;
    }
  }

  // ----- the pruned unit is self-contained -----

  /** The parts of a node. */
  function Kids(node: Node): seq<Node> {
    match node
    case Tag(_, _, body) => body
    case Enumerator(_, value) => value
    case Ptr(of) => [of]
    case Array(of, dim) => [of] + dim
    case FuncType(of, args) => [of] + args
    case TypeDecl(_, of) => [of]
    case Decl(_, of, init) => [of] + init
    case Typedef(_, of) => [of]
    case FuncDef(_, parts) => parts
    case Other(parts) => parts
    case _ => []
  }

  predicate HasPath(node: Node, path: seq<nat>)
    decreases |path|
  {
    |path| == 0 || (path[0] < |Kids(node)| && HasPath(Kids(node)[path[0]], path[1..]))
  }

  function At(node: Node, path: seq<nat>): Node
    requires HasPath(node, path)
    decreases |path|
  {
    if |path| == 0 then node else At(Kids(node)[path[0]], path[1..])
  }

  lemma {:induction false} OneOfAll(scope: Scope, nodes: seq<Node>, k: nat, i: nat)
    requires i < k <= |nodes|
    ensures Mentioned(scope, nodes[i]) <= AllMentioned(scope, nodes, k)
    ensures forall tags :: Forwards(scope, nodes[i], tags) <= AllForwards(scope, nodes, k, tags)
    ensures Accessed(nodes[i]) <= AllAccessed(nodes, k)
    decreases k
  {
    if i < k - 1 {
      OneOfAll(scope, nodes, k - 1, i);
    }
  }

  /** What a part mentions the whole does, except behind a pointer that needs no more than a
      forward declaration. */
  lemma PartIsMentioned(scope: Scope, node: Node, i: nat)
    requires i < |Kids(node)|
    ensures !(node.Ptr? && PointsOnly(scope, node.of)) ==>
              Mentioned(scope, Kids(node)[i]) <= Mentioned(scope, node)
    ensures !(node.Ptr? && PointsOnly(scope, node.of)) ==>
              forall tags :: Forwards(scope, Kids(node)[i], tags) <= Forwards(scope, node, tags)
  {
    match node
    case Tag(_, _, body) => OneOfAll(scope, body, |body|, i);
    case Enumerator(_, value) => OneOfAll(scope, value, |value|, i);
    case Array(_, dim) =>
      if i > 0 {
        OneOfAll(scope, dim, |dim|, i - 1);
      }
    case FuncType(_, args) =>
      if i > 0 {
        OneOfAll(scope, args, |args|, i - 1);
      }
    case Decl(_, _, init) =>
      if i > 0 {
        OneOfAll(scope, init, |init|, i - 1);
      }
    case FuncDef(_, parts) => OneOfAll(scope, parts, |parts|, i);
    case Other(parts) => OneOfAll(scope, parts, |parts|, i);
    case _ =>
  }

  /** An identifier anywhere in a node is mentioned by it. */
  lemma {:induction false} IdIsMentioned(scope: Scope, node: Node, path: seq<nat>)
    requires HasPath(node, path) && At(node, path).Id?
    ensures At(node, path).name in Mentioned(scope, node)
    decreases |path|
  {
    if |path| > 0 {
      if node.Ptr? && PointsOnly(scope, node.of) {
        BehindPointer(scope, node, path);
      } else {
        IdIsMentioned(scope, Kids(node)[path[0]], path[1..]);
        PartIsMentioned(scope, node, path[0]);
      }
    }
  }

  /** Behind such a pointer stand a declarator and a type name or a tag without body. */
  lemma BehindPointer(scope: Scope, node: Node, path: seq<nat>)
    requires node.Ptr? && PointsOnly(scope, node.of) && HasPath(node, path) && |path| > 0
    ensures At(node, path) == node.of || At(node, path) == node.of.of
  {
    var inner, p := node.of, path[1..];
    assert Kids(node) == [inner] && Kids(inner) == [inner.of] && Kids(inner.of) == [];
    assert HasPath(inner, p) && At(node, path) == At(inner, p);
    if |p| > 0 {
      assert HasPath(inner.of, p[1..]);
      assert At(inner, p) == At(inner.of, p[1..]) && |p[1..]| == 0;
    }
  }

  /** A type word anywhere in a node is mentioned, or a forward declaration is asked for. */
  lemma {:induction false} TypeIsMentioned(scope: Scope, node: Node, path: seq<nat>, n: string)
    requires HasPath(node, path) && At(node, path).IdType? && n in At(node, path).names
    ensures n in Mentioned(scope, node) || n in Forwards(scope, node, false)
    decreases |path|
  {
    if |path| > 0 {
      if node.Ptr? && PointsOnly(scope, node.of) {
        BehindPointer(scope, node, path);
      } else {
        TypeIsMentioned(scope, Kids(node)[path[0]], path[1..], n);
        PartIsMentioned(scope, node, path[0]);
      }
    }
  }

  /** So is a tag that stands without its body. */
  lemma {:induction false} TagIsMentioned(scope: Scope, node: Node, path: seq<nat>)
    requires HasPath(node, path) && At(node, path).Tag? && At(node, path).tag.Some? && At(node, path).body == []
    ensures var n := At(node, path).tag.value; n in Mentioned(scope, node) || n in Forwards(scope, node, true)
    decreases |path|
  {
    if |path| > 0 {
      if node.Ptr? && PointsOnly(scope, node.of) {
        BehindPointer(scope, node, path);
      } else {
        TagIsMentioned(scope, Kids(node)[path[0]], path[1..]);
        PartIsMentioned(scope, node, path[0]);
      }
    }
  }

  /** The items that declare a name as such: a function, a typedef, or a variable or function
      without an initialiser. */
  predicate IsFor(item: Node, n: string) {
    || (item.FuncDef? && item.name == n) || (item.Typedef? && item.name == n)
    || (item.Decl? && item.decl == Some(n) && item.init == [])
  }

  /** What is always kept: the function itself, variables with an initialiser, pragmas other
      than those for assembly, and everything else that is neither declaration nor function. */
  lemma AlwaysKept(ext: seq<Node>, target: nat, keep: set<nat>, j: nat)
    requires Needed(ext, target, keep) && j < |ext|
    requires match ext[j]
             case Decl(_, _, init) => init != []
             case FuncDef(_, _) => j == target
             case Pragma(_, asm) => !asm
             case Typedef(_, _) => false
             case _ => true
    ensures j in keep
  {
  }

  /** With a kept item everything is kept that it refers to: the items for each identifier in
      it, and for each type word, unless a forward declaration does. */
  lemma PrunedIsSelfContained(ext: seq<Node>, target: nat, plan: Plan, i: nat, path: seq<nat>, j: nat, n: string)
    requires Needed(ext, target, plan.keep) && Asking(ext, plan.keep, plan.typedefs, false)
    requires i in plan.keep && i < |ext| && HasPath(ext[i], path) && j < |ext| && IsFor(ext[j], n)
    requires target < |ext| && ext[target].FuncDef?
    ensures At(ext[i], path) == Id(n) ==> j in plan.keep
    ensures At(ext[i], path).IdType? && n in At(ext[i], path).names ==> j in plan.keep || n in plan.typedefs
  {
    var scope := ScopeOf(ext);
    if j == target {
      AlwaysKept(ext, target, plan.keep, j);
    } else {
      assert n in Declared(ext[j], false);
      if At(ext[i], path) == Id(n) {
        IdIsMentioned(scope, ext[i], path);
        assert Leads(ext, target, i, j);
      }
      if At(ext[i], path).IdType? && n in At(ext[i], path).names {
        TypeIsMentioned(scope, ext[i], path, n);
        if n in Mentioned(scope, ext[i]) {
          assert Leads(ext, target, i, j);
        }
      }
    }
  }

  /** Nothing is kept without a reason: a kept item is a root, or some other kept item
      mentions a name that it declares. */
  lemma NothingElseKept(ext: seq<Node>, target: nat, keep: set<nat>, j: nat)
    requires Needed(ext, target, keep) && j in keep && j < |ext|
    ensures IsRoot(ext[j], j == target) || exists i :: i in keep && i < |ext| && i != j && Leads(ext, target, i, j)
  {
    if !IsRoot(ext[j], j == target) && forall i | i in keep && i < |ext| && i != j :: !Leads(ext, target, i, j) {
      var less := keep - {j};
      assert Closed(ext, target, less);
    }
  }
}
