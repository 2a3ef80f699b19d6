/** The graph object and its construction from the post-dominator tree. */
module DependenceGraph {
  import opened Wrappers
  import opened ControlFlow
  import opened PostDominators
  import opened Chains
  import opened ControlDependence
  import opened Governing
  import opened Regions
  import opened Upward

  /** Recorded dependences on blocks are exactly the control dependence relation. */
  lemma RecordedRelation(f: Function, pd: set<(Block, Block)>, deps: DependenceMap)
    requires (forall b :: b in deps <==> b in f.blocks) && (forall a, b :: f.Edge(a, b) ==> a in f.blocks)
    requires forall b, t, p :: b in deps ==> ((t, p) in deps[b] <==> IsDependence(f, pd, p, t, BlockNode(b)))
    ensures Relates(RelationOver(f, pd), deps)
  {
    forall y, x ensures (y, x) in RelationOver(f, pd) <==> y in deps && Carries(deps[y], BlockNode(x)) {
      if (y, x) in RelationOver(f, pd) {
        var b :| DependsVia(f, pd, y, x, b);
        EdgeTypeIsOutcome(f, pd, y, GetEdgeType(f, x, b), x);
        assert (GetEdgeType(f, x, b), BlockNode(x)) in deps[y];
      }
      if y in deps && Carries(deps[y], BlockNode(x)) {
        var t :| (t, BlockNode(x)) in deps[y];
        assert IsDependence(f, pd, BlockNode(x), t, BlockNode(y));
        EdgeTypeIsOutcome(f, pd, y, t, x);
      }
    }
  }

  lemma DependencesListed(f: Function, pd: set<(Block, Block)>, kids: set<Kid>, parents: set<(Node, Node)>,
                          deps: DependenceMap)
    requires Dependent(f, pd, kids, parents)
    requires (forall y, x :: (y, x) in pd ==> y in f.blocks) && (forall b, s :: f.Edge(b, s) ==> b in f.blocks)
    requires deps == map b | b in f.blocks :: set k | k in kids && k.2 == BlockNode(b) :: (k.1, k.0)
    ensures ClosedMap(deps) && Lists(deps, kids)
    ensures forall b, t, p :: b in deps ==> ((t, p) in deps[b] <==> IsDependence(f, pd, p, t, BlockNode(b)))
  {
  }

  datatype Enclosing = NoNode | AssertionFails | In(region: Node)

  /** The graph owns its nodes. The four std::set members of every node are kept as two relations:
      `kids` holds (n, TRUE/FALSE/OTHER, c) for c in the matching child set of n, and `parents`
      holds (n, p) for p in n's Parents. */
  class Graph {
    var nodes: set<Node>
    var bbMap: map<Block, Node>
    var kids: set<Kid>
    var parents: set<(Node, Node)>
    var nextRegion: nat
    ghost var deps: DependenceMap
    ghost var table: Table
    ghost var form: Form

    constructor ()
      ensures nodes == {} && bbMap == map[] && kids == {} && parents == {} && nextRegion == 0
    {
      nodes, bbMap, kids, parents, nextRegion := {}, map[], {}, {}, 0;
    }

    // ----- ControlDependenceNode's mutators

    method AddChild(n: Node, t: EdgeType, child: Node)
      modifies this`kids
      ensures kids == old(kids) + {(n, t, child)}
    {
      kids := kids + {(n, t, child)};
    }

    method RemoveChild(n: Node, t: EdgeType, child: Node)
      modifies this`kids
      ensures kids == old(kids) - {(n, t, child)}
    {
      kids := kids - {(n, t, child)};
    }

    /** The source asserts that the child edge is already there. */
    method AddParent(n: Node, parent: Node)
      requires HasChild(kids, parent, n)
      modifies this`parents
      ensures parents == old(parents) + {(n, parent)}
    {
      parents := parents + {(n, parent)};
    }

    method RemoveParent(n: Node, parent: Node)
      modifies this`parents
      ensures parents == old(parents) - {(n, parent)}
    {
      parents := parents - {(n, parent)};
    }

    // ----- computeDependencies

    method AddNodes(f: Function)
      requires nodes == {} && bbMap == map[]
      modifies this`nodes, this`bbMap
      ensures nodes == {Root} + (set b | b in f.blocks :: BlockNode(b))
      ensures forall b :: b in bbMap <==> b in f.blocks
      ensures forall b :: b in f.blocks ==> bbMap[b] == BlockNode(b)
    {
      nodes := {Root};
      for i := 0 to |f.blocks|
        invariant nodes == {Root} + (set b | b in f.blocks[..i] :: BlockNode(b))
        invariant forall b :: b in bbMap <==> b in f.blocks[..i]
        invariant forall b :: b in f.blocks[..i] ==> bbMap[b] == BlockNode(b)
      {
        assert f.blocks[..i + 1] == f.blocks[..i] + [f.blocks[i]];
        nodes := nodes + {BlockNode(f.blocks[i])};
        bbMap := bbMap[f.blocks[i] := BlockNode(f.blocks[i])];
      }
      assert f.blocks[..|f.blocks|] == f.blocks;
    }

    method AddDependence(p: Node, ty: EdgeType, c: Node)
      requires Mirror(kids, parents)
      modifies this`kids, this`parents
      ensures kids == old(kids) + {(p, ty, c)}
      ensures Mirror(kids, parents)
    {
      AddChild(p, ty, c);
      AddParent(c, p);
    }

    /** The tree walk shared by the edge case and the entry case: every node from b up to `stop`. */
    method WalkUp(t: Tree, p: Node, ty: EdgeType, b: Block, stop: Option<Block>)
      requires t.WellFormed() && b in t.idom && (stop.Some? ==> stop.value in t.idom && t.Dominates(stop.value, b))
      requires Mirror(kids, parents)
      modifies this`kids, this`parents
      ensures kids == old(kids) + WalkKids(t, p, ty, b, stop)
      ensures Mirror(kids, parents)
    {
      var cur := Some(b);
      while cur.Some? && cur != stop
        invariant cur.Some? ==> cur.value in t.idom && t.Dominates(cur.value, b)
        invariant stop.Some? ==> cur.Some? && t.Dominates(stop.value, cur.value)
        invariant kids == old(kids) + WalkKids(t, p, ty, b, cur)
        invariant Mirror(kids, parents)
        decreases if cur.Some? then t.depth[cur.value] + 1 else 0
      {
        WalkStep(t, p, ty, b, cur.value);
        AddDependence(p, ty, BlockNode(cur.value));
        cur := t.idom[cur.value];
      }
    }

    method ProcessEdge(t: Tree, a: Block, ty: EdgeType, b: Block)
      requires t.WellFormed() && a in t.idom && b in t.idom
      requires Mirror(kids, parents)
      modifies this`kids, this`parents
      ensures kids == old(kids) + EdgeKids(t, a, ty, b)
      ensures Mirror(kids, parents)
    {
      if a == b || !t.Dominates(b, a) {
        var l := t.NearestCommon(a, b);
        WalkToCommonAncestor(t, a, ty, b);
        if l == Some(a) {
          AddDependence(BlockNode(a), ty, BlockNode(a));
        }
        WalkUp(t, BlockNode(a), ty, b, l);
      } else {
        SkippedEdge(t, a, ty, b);
      }
    }

    method ProcessBlock(f: Function, t: Tree, ghost pd: set<(Block, Block)>, a: Block, ghost edges: set<(Block, Block)>)
      returns (ghost edges': set<(Block, Block)>)
      requires Represents(t, pd) && a in f.succ && a in t.idom && (forall b :: b in f.succ[a] ==> b in t.idom)
      requires forall y, x :: (y, x) in pd ==> y in t.idom
      requires Mirror(kids, parents) && Collected(f, pd, edges, kids)
      modifies this`kids, this`parents
      ensures Mirror(kids, parents) && Collected(f, pd, edges', kids)
      ensures edges' == edges + (set b | b in f.succ[a] :: (a, b))
    {
      edges' := edges;
      for j := 0 to |f.succ[a]|
        invariant Mirror(kids, parents) && Collected(f, pd, edges', kids)
        invariant edges' == edges + (set b | b in f.succ[a][..j] :: (a, b))
      {
        var b := f.succ[a][j];
        assert f.succ[a][..j + 1] == f.succ[a][..j] + [b];
        CollectEdge(f, t, pd, edges', kids, a, b);
        ProcessEdge(t, a, GetEdgeType(f, a, b), b);
        edges' := edges' + {(a, b)};
      }
      assert f.succ[a][..|f.succ[a]|] == f.succ[a];
    }

    method ProcessBlocks(f: Function, t: Tree, ghost pd: set<(Block, Block)>) returns (ghost edges: set<(Block, Block)>)
      requires Represents(t, pd) && (forall b :: b in f.blocks ==> b in f.succ && b in t.idom)
      requires forall b, s :: b in f.succ && s in f.succ[b] ==> s in t.idom
      requires forall y, x :: (y, x) in pd ==> y in t.idom
      requires kids == {} && parents == {}
      modifies this`kids, this`parents
      ensures Mirror(kids, parents) && Collected(f, pd, edges, kids)
      ensures forall a: Block, b: Block :: (a, b) in edges <==> a in f.blocks && f.Edge(a, b)
    {
      edges := {};
      for i := 0 to |f.blocks|
        invariant Mirror(kids, parents) && Collected(f, pd, edges, kids)
        invariant forall a: Block, b: Block :: (a, b) in edges <==> a in f.blocks[..i] && f.Edge(a, b)
      {
        assert f.blocks[..i + 1] == f.blocks[..i] + [f.blocks[i]];
        edges := ProcessBlock(f, t, pd, f.blocks[i], edges);
      }
      assert f.blocks[..|f.blocks|] == f.blocks;
    }

    /** The edges of the finished construction are exactly the control dependences of the function. */
    method ComputeDependencies(f: Function, t: Tree, ghost pd: set<(Block, Block)>)
      requires f.WellFormed() && Represents(t, pd) && (forall b :: b in t.idom <==> b in f.blocks)
      requires forall y, x :: (y, x) in pd ==> y in t.idom && x in t.idom
      requires nodes == {} && bbMap == map[] && kids == {} && parents == {}
      modifies this`nodes, this`bbMap, this`kids, this`parents
      ensures nodes == {Root} + (set b | b in f.blocks :: BlockNode(b))
      ensures forall b :: b in bbMap <==> b in f.blocks
      ensures forall b :: b in f.blocks ==> bbMap[b] == BlockNode(b)
      ensures Dependent(f, pd, kids, parents)
    {
      AddNodes(f);
      ghost var edges := ProcessBlocks(f, t, pd);
      ghost var collected := kids;
      WalkUp(t, Root, Other, f.Entry(), None);
      DependencesComplete(f, t, pd, edges, collected, kids, parents);
    }

    // ----- insertRegions

    method NewRegion() returns (region: Node)
      modifies this`nodes, this`nextRegion
      ensures region == Region(old(nextRegion)) && nextRegion == old(nextRegion) + 1
      ensures nodes == old(nodes) + {region}
    {
      region := Region(nextRegion);
      nodes, nextRegion := nodes + {region}, nextRegion + 1;
    }

    /** The typed dependences of n, read off the child sets of its parents. */
    method DependencesOf(n: Node) returns (ds: Dependences)
      requires forall p :: (n, p) in parents <==> HasChild(kids, p, n)
      ensures forall t, p :: (t, p) in ds <==> (p, t, n) in kids
    {
      ds := {};
      var rest := set e | e in parents && e.0 == n :: e.1;
      assert forall p :: p in rest <==> (n, p) in parents by {
        forall p | (n, p) in parents ensures p in rest { assert (n, p).1 in rest; }
      }
      while rest != {}
        invariant forall t, p :: (t, p) in ds <==> (p, t, n) in kids && p !in rest
      {
        var parent :| parent in rest;
        if (parent, True, n) in kids { ds := ds + {(True, parent)}; }
        if (parent, False, n) in kids { ds := ds + {(False, parent)}; }
        if (parent, Other, n) in kids { ds := ds + {(Other, parent)}; }
        forall t ensures (t, parent) in ds <==> (parent, t, n) in kids {
          match t { case True => case False => case Other => }
        }
        rest := rest - {parent};
      }
    }

    method Attach(region: Node, ds: Dependences)
      modifies this`kids, this`parents
      ensures kids == old(kids) + AttachKids(ds, region)
      ensures parents == old(parents) + AttachParents(ds, region)
    {
      var rest := ds;
      while rest != {}
        invariant rest <= ds
        invariant kids == old(kids) + AttachKids(ds - rest, region)
        invariant parents == old(parents) + AttachParents(ds - rest, region)
      {
        var d :| d in rest;
        AddChild(d.1, d.0, region);
        assert (d.1, d.0, region) in kids;
        AddParent(region, d.1);
        rest := rest - {d};
        assert ds - rest == (ds - (rest + {d})) + {d};
      }
      assert ds - {} == ds;
    }

    /** Moves node under region, dropping its old edges one dependence at a time. */
    method Move(node: Node, region: Node, ds: Dependences)
      requires Carries(ds, region) ==> ds == {(Other, region)}
      modifies this`kids, this`parents
      ensures kids == old(kids) - AttachKids(ds, node) + (if ds == {} then {} else {(region, Other, node)})
      ensures parents == old(parents) + (if ds == {} then {} else {(node, region)}) - AttachParents(ds, node)
    {
      var rest := ds;
      while rest != {}
        invariant rest <= ds
        invariant kids == old(kids) - AttachKids(ds - rest, node) + (if rest == ds then {} else {(region, Other, node)})
        invariant parents == old(parents)
          + (if rest == ds then {} else {(node, region)}) - AttachParents(ds - rest, node)
      {
        var d :| d in rest;
        assert d == (d.0, d.1) && (Carries(ds, region) || d.1 != region);
        assert d.1 == region ==> rest == ds == {d};
        RemoveChild(d.1, d.0, node);
        AddChild(region, Other, node);
        AddParent(node, region);
        RemoveParent(node, d.1);
        assert ds - (rest - {d}) == (ds - rest) + {d};
        rest := rest - {d};
      }
      assert ds - {} == ds;
    }

    ghost predicate Grouping(visited: set<Block>)
      reads this
    {
      ClosedMap(deps) && table.Valid(deps, visited, nextRegion) && table.Grouped(deps, visited, kids, parents)
    }

    /** Looks the dependence set up in cdMap, allocating and attaching a region when it is new. */
    method FindRegion(b: Block, ds: Dependences, cdMap: map<Dependences, Node>, ghost visited: set<Block>)
      returns (cdMap': map<Dependences, Node>)
      requires Grouping(visited) && table.regionOf == cdMap && b in deps && ds == deps[b]
      modifies this`kids, this`parents, this`nodes, this`nextRegion, this`table
      ensures ClosedMap(deps) && table.Valid(deps, visited + {b}, nextRegion)
      ensures table.Grouped(deps, visited, kids, parents)
      ensures table.regionOf == cdMap'
      ensures old(nodes) <= nodes
    {
      cdMap' := cdMap;
      TableGrow(table, deps, visited, nextRegion, b);
      if ds !in cdMap {
        GroupRegion(table, deps, visited, nextRegion, kids, parents, b);
        var region := NewRegion();
        cdMap' := cdMap'[ds := region];
        Attach(region, ds);
        table := Table(cdMap', table.key[region := ds]);
      }
    }

    /** One block of the post-order walk, with `cdMap` as it stands. */
    method VisitBlock(b: Block, cdMap: map<Dependences, Node>, ghost visited: set<Block>)
      returns (cdMap': map<Dependences, Node>)
      requires Grouping(visited) && table.regionOf == cdMap
      requires b in deps && b !in visited
      modifies this`kids, this`parents, this`nodes, this`nextRegion, this`table
      ensures Grouping(visited + {b}) && table.regionOf == cdMap'
      ensures old(nodes) <= nodes
    {
      Unvisited(table, deps, visited, kids, parents, b);
      var ds := DependencesOf(BlockNode(b));
      assert ds == deps[b] by {
        forall d ensures d in ds <==> d in deps[b] { assert d == (d.0, d.1); }
      }
      cdMap' := FindRegion(b, ds, cdMap, visited);
      GroupMove(table, deps, visited, nextRegion, kids, parents, b);
      RegionNotADependence(table, deps, visited + {b}, nextRegion, b);
      Move(BlockNode(b), cdMap'[ds], ds);
    }

    method GroupBlocks(order: seq<Block>)
      requires ClosedMap(deps) && Lists(deps, kids) && Mirror(kids, parents) && nextRegion == 0
      requires forall b :: b in order <==> b in deps
      requires forall i, j :: 0 <= i < j < |order| ==> order[i] != order[j]
      modifies this`kids, this`parents, this`nodes, this`nextRegion, this`table
      ensures Grouping(deps.Keys)
      ensures old(nodes) <= nodes
    {
      var cdMap := map[ROOT_ONLY := Root];
      table := Table(cdMap, map[]);
      GroupStart(deps, kids, parents);
      ghost var visited: set<Block> := {};
      for i := 0 to |order|
        invariant Grouping(visited) && table.regionOf == cdMap
        invariant forall b :: b in visited <==> b in order[..i]
        invariant old(nodes) <= nodes
      {
        assert order[..i + 1] == order[..i] + [order[i]];
        cdMap := VisitBlock(order[i], cdMap, visited);
        visited := visited + {order[i]};
      }
      assert order[..|order|] == order;
      assert forall b :: b in visited <==> b in order;
      assert forall b :: b in order <==> b in deps;
      assert visited == deps.Keys;
    }

    /** The edges are exactly those of the form reached so far. */
    ghost predicate Splitting()
      reads this`form, this`nextRegion, this`kids, this`parents
    {
      form.next == nextRegion && form.Valid() && form.Describes(kids, parents)
    }

    /** Hands the t-children of x, read as a snapshot, to a new region. */
    method TakeOver(x: Node, t: EdgeType, children: set<Node>)
      requires Region(nextRegion) != x && Region(nextRegion) !in children
      requires forall c :: c in children <==> (x, t, c) in kids
      modifies this`kids, this`parents, this`nodes, this`nextRegion
      ensures nextRegion == old(nextRegion) + 1
      ensures TakenOver(old(kids), old(parents), x, t, children, Region(old(nextRegion)), kids, parents)
    {
      var region := NewRegion();
      var rest := children;
      while rest != {}
        invariant rest <= children && nextRegion == old(nextRegion) + 1
        invariant forall y, u, c :: (y, u, c) in kids <==>
          ((y, u, c) in old(kids) && !(y == x && u == t && c !in rest)) ||
          (y == region && u == Other && c in children - rest)
        invariant forall c, p :: (c, p) in parents <==>
          ((c, p) in old(parents) && !(c in children - rest && p == x)) || (c in children - rest && p == region)
      {
        var child :| child in rest;
        AddChild(region, Other, child);
        assert (region, Other, child) in kids;
        AddParent(child, region);
        RemoveParent(child, x);
        RemoveChild(x, t, child);
        rest := rest - {child};
      }
      AddChild(x, t, region);
      assert (x, t, region) in kids;
      AddParent(region, x);
    }

    /** Moves the t-children of x under a region of their own. */
    method SplitOff(x: Node, t: EdgeType, children: set<Node>)
      requires Splitting() && x.BlockNode? && t != Other && (x, t) !in form.region && |children| > 1
      requires forall c :: c in children <==> (x, t, c) in kids
      modifies this`kids, this`parents, this`nodes, this`nextRegion, this`form
      ensures Splitting() && form == old(form).Split(x, t) && form.table.Crowded(x, t)
    {
      ghost var kids0, parents0 := kids, parents;
      FreshAmong(form, kids, parents, x, t, children);
      TakeOver(x, t, children);
      SplitStep(form, kids0, parents0, x, t, children, kids, parents);
      form := form.Split(x, t);
    }

    /** Splits (x, t) exactly when it is crowded, and nothing else. */
    method SplitChildren(x: Node, t: EdgeType)
      requires Splitting() && x.BlockNode? && t != Other
      modifies this`kids, this`parents, this`nodes, this`nextRegion, this`form
      ensures Splitting() && form.deps == old(form).deps && form.table == old(form).table
      ensures form.region.Keys == old(form).region.Keys + (if form.table.Crowded(x, t) then {(x, t)} else {})
    {
      var children := ChildrenBy(kids, x, t);
      ManyMeansCrowded(form, kids, parents, x, t, children);
      if |children| > 1 {
        SplitOff(x, t, children);
      }
    }

    method SplitBlock(n: Node)
      requires Splitting()
      modifies this`kids, this`parents, this`nodes, this`nextRegion, this`form
      ensures Splitting() && form.deps == old(form).deps && form.table == old(form).table
      ensures old(form).region.Keys <= form.region.Keys
      ensures n.BlockNode? ==> forall t :: t != Other && form.table.Crowded(n, t) ==> (n, t) in form.region
    {
      if n.BlockNode? {
        SplitChildren(n, True);
        SplitChildren(n, False);
      }
    }

    /** Splits exactly the crowded places, so every block ends with at most one true and one false child. */
    method SplitBlocks()
      requires Grouping(deps.Keys)
      requires forall b :: b in deps ==> BlockNode(b) in nodes
      modifies this`kids, this`parents, this`nodes, this`nextRegion, this`form
      ensures Splitting() && form.deps == deps && form.FullySplit()
    {
      SplitStart(table, deps, nextRegion, kids, parents);
      form := Form(deps, table, map[], map[], nextRegion);
      var todo := nodes;
      while todo != {}
        invariant Splitting() && form.deps == deps && form.table == table
        invariant forall x: Node, t: EdgeType ::
          x in old(nodes) - todo && x.BlockNode? && t != Other && table.Crowded(x, t) ==> (x, t) in form.region
      {
        var n :| n in todo;
        SplitBlock(n);
        todo := todo - {n};
      }
      SplitEverywhere(form, old(nodes));
    }

    // ----- graphForFunction and the queries

    /** `deps` records the typed dependences of the function. */
    ghost predicate Records(f: Function, pd: set<(Block, Block)>)
      reads this
    {
      && (forall b :: b in deps <==> b in f.blocks)
      && (forall b, t, p :: b in deps ==> ((t, p) in deps[b] <==> IsDependence(f, pd, p, t, BlockNode(b))))
    }

    /** What a finished graph offers to queries. */
    ghost predicate Built(f: Function)
      reads this
    {
      BuiltOver(f, PostDominance(f))
    }

    ghost predicate BuiltOver(f: Function, pd: set<(Block, Block)>)
      reads this
    {
      && (forall b :: b in bbMap <==> b in f.blocks)
      && (forall b :: b in bbMap ==> bbMap[b] == BlockNode(b))
      && Records(f, pd)
      && Splitting() && form.deps == deps && form.FullySplit()
    }

    method InsertRegions(order: seq<Block>)
      requires ClosedMap(deps) && Lists(deps, kids) && Mirror(kids, parents) && nextRegion == 0
      requires forall b :: b in order <==> b in deps
      requires forall i, j :: 0 <= i < j < |order| ==> order[i] != order[j]
      requires forall b :: b in deps ==> BlockNode(b) in nodes
      modifies this`kids, this`parents, this`nodes, this`nextRegion, this`table, this`form
      ensures Splitting() && form.deps == deps && form.FullySplit()
    {
      GroupBlocks(order);
      SplitBlocks();
    }

    ghost method RecordDependences(f: Function, pd: set<(Block, Block)>)
      requires Dependent(f, pd, kids, parents)
      requires (forall y, x :: (y, x) in pd ==> y in f.blocks) && (forall b, s :: f.Edge(b, s) ==> b in f.blocks)
      modifies this`deps
      ensures Records(f, pd) && ClosedMap(deps) && Lists(deps, kids)
    {
      deps := map b | b in f.blocks :: set k | k in kids && k.2 == BlockNode(b) :: (k.1, k.0);
      DependencesListed(f, pd, kids, parents, deps);
    }

    /** `order` is LLVM's post-order enumeration of the tree; any enumeration gives the same guarantees. */
    method GraphForFunction(f: Function, t: Tree, order: seq<Block>)
      requires TreeFor(f, t)
      requires forall b :: b in order <==> b in f.blocks
      requires forall i, j :: 0 <= i < j < |order| ==> order[i] != order[j]
      requires nodes == {} && bbMap == map[] && kids == {} && parents == {} && nextRegion == 0
      modifies this
      ensures Built(f)
    {
      Construct(f, t, order, PostDominance(f));
    }

    method Construct(f: Function, t: Tree, order: seq<Block>, ghost pd: set<(Block, Block)>)
      requires f.WellFormed() && Represents(t, pd) && (forall b :: b in t.idom <==> b in f.blocks)
      requires forall y, x :: (y, x) in pd ==> y in f.blocks && x in f.blocks
      requires forall b :: b in order <==> b in f.blocks
      requires forall i, j :: 0 <= i < j < |order| ==> order[i] != order[j]
      requires nodes == {} && bbMap == map[] && kids == {} && parents == {} && nextRegion == 0
      modifies this
      ensures BuiltOver(f, pd)
    {
      ComputeDependencies(f, t, pd);
      RecordDependences(f, pd);
      InsertRegions(order);
    }

    /** In a finished graph a block has a child by `t` exactly when some block depends on that outcome
        of its branch, and never two. */
    lemma FinishedChildren(f: Function, x: Block, t: EdgeType)
      requires Built(f) && x in f.blocks && t != Other
      ensures |ChildrenBy(kids, BlockNode(x), t)| <= 1
      ensures ChildrenBy(kids, BlockNode(x), t) != {} <==>
        exists y :: y in f.blocks && DependsTyped(f, PostDominance(f), y, t, x)
    {
      ManyMeansCrowded(form, kids, parents, BlockNode(x), t, ChildrenBy(kids, BlockNode(x), t));
      HasChildBy(form, kids, parents, BlockNode(x), t);
      forall y | y in f.blocks ensures (t, BlockNode(x)) in deps[y] <==> DependsTyped(f, PostDominance(f), y, t, x) {
        assert (t, BlockNode(x)) in deps[y] <==> IsDependence(f, PostDominance(f), BlockNode(x), t, BlockNode(y));
      }
    }

    /** y lies on the arm of x that begins with s: it is always passed from s on, but not from x. */
    ghost predicate OnArm(f: Function, x: Block, s: Block, y: Block) {
      f.PostDominates(y, s) && !(y != x && f.PostDominates(y, x))
    }

    /** The two arms of a branch stay apart: two blocks, one on each arm and not both on both, never
        share a region. */
    lemma ArmsApart(f: Function, x: Block, y: Block, z: Block)
      requires Built(f) && f.WellFormed() && x in f.conditional && y in f.blocks && z in f.blocks
      requires f.succ[x][0] != f.succ[x][1]
      requires OnArm(f, x, f.succ[x][0], y) && OnArm(f, x, f.succ[x][1], z)
      requires !OnArm(f, x, f.succ[x][1], y) || !OnArm(f, x, f.succ[x][0], z)
      ensures !exists r :: (BlockNode(y), r) in parents && (BlockNode(z), r) in parents
    {
      hide OnArm, Function.PostDominates, Form.Describes, Form.Valid, Form.FullySplit, Records;
      ArmDependence(f, x, y);
      ArmDependence(f, x, z);
      SharedRegion(form, kids, parents, y, z);
    }

    lemma ArmDependence(f: Function, x: Block, y: Block)
      requires Built(f) && f.WellFormed() && x in f.conditional && y in f.blocks && f.succ[x][0] != f.succ[x][1]
      ensures y in deps && ((True, BlockNode(x)) in deps[y] <==> OnArm(f, x, f.succ[x][0], y))
      ensures (False, BlockNode(x)) in deps[y] <==> OnArm(f, x, f.succ[x][1], y)
    {
      hide Form.Describes, Form.Valid, Form.FullySplit;
      assert (True, BlockNode(x)) in deps[y] <==> IsDependence(f, PostDominance(f), BlockNode(x), True, BlockNode(y));
      assert (False, BlockNode(x)) in deps[y] <==> IsDependence(f, PostDominance(f), BlockNode(x), False, BlockNode(y));
      assert f.Edge(x, f.succ[x][0]) && f.Edge(x, f.succ[x][1]);
    }

    method ParentsOf(n: Node) returns (list: seq<Node>)
      ensures forall p :: p in list <==> (n, p) in parents
    {
      list := [];
      var rest := set e | e in parents && e.0 == n :: e.1;
      assert forall p :: (n, p) in parents ==> (n, p).1 in rest;
      while rest != {}
        invariant forall p :: (n, p) in parents <==> p in list || p in rest
      {
        var p :| p in rest;
        list := list + [p];
        rest := rest - {p};
      }
    }

    /** Pushes the parents of n that are not finished yet, duplicates and all. */
    method PushParents(n: Node, worklist: seq<Node>, fin: set<Node>) returns (worklist': seq<Node>)
      ensures forall x :: x in worklist' <==> x in worklist || ((n, x) in parents && x !in fin)
      ensures Stale(worklist', fin) == Stale(worklist, fin)
    {
      worklist' := worklist;
      var list := ParentsOf(n);
      for i := 0 to |list|
        invariant forall x :: x in worklist' <==> x in worklist || (x in list[..i] && x !in fin)
        invariant Stale(worklist', fin) == Stale(worklist, fin)
      {
        assert list[..i + 1] == list[..i] + [list[i]];
        if list[i] !in fin {
          StaleAppend(worklist', fin, list[i]);
          worklist' := worklist' + [list[i]];
        }
      }
      assert list[..|list|] == list;
    }

    /** The breadth-first query, on any graph: true exactly when a chain of parents leads from b to a. */
    method SearchUp(a: Block, start: Node) returns (r: bool)
      ensures r <==> Chain(parents, start, BlockNode(a))
    {
      var worklist := ParentsOf(start);
      var fin: set<Node> := {};
      SearchStart(parents, start, a, worklist);
      while worklist != []
        invariant Searching(parents, start, a, fin, worklist)
        decreases |Targets(parents) - fin|, Stale(worklist, fin)
      {
        var n := worklist[0];
        if n !in fin { FinishesOne(Targets(parents), fin, n); } else { assert fin + {n} == fin; }
        if GetBlock(n) == Some(a) { return true; }
        var worklist' := PushParents(n, worklist[1..], fin + {n});
        SearchStep(parents, start, a, fin, worklist, worklist');
        worklist, fin := worklist', fin + {n};
      }
      SearchDone(parents, start, a, fin);
      return false;
    }

    lemma ChainsMeanDependence(f: Function, b: Block, a: Block)
      requires Built(f) && f.WellFormed()
      ensures Chain(parents, BlockNode(b), BlockNode(a)) <==> Influences(f, a, b)
    {
      RecordedRelation(f, PostDominance(f), deps);
      RegionsPreserveChains(form, kids, parents, ControlRelation(f), b, a);
    }

    lemma HasNode(f: Function, b: Block)
      requires Built(f) && b in f.blocks
      ensures b in bbMap
    {
    }

    /** True exactly when a non-empty chain of control dependences, as defined by paths, leads from b
        to a. The source asserts that b has a node. */
    method Influenced(ghost f: Function, a: Option<Block>, b: Option<Block>) returns (r: bool)
      requires Built(f) && f.WellFormed() && (a.Some? && b.Some? ==> b.value in bbMap)
      ensures r <==> a.Some? && b.Some? && Influences(f, a.value, b.value)
    {
      if a == None || b == None { return false; }
      r := SearchUp(a.value, bbMap[b.value]);
      ChainsMeanDependence(f, b.value, a.value);
    }

    /** Follows sole parents. Halts' negation is exactly when the source's loop never ends. */
    method Controls(a: Option<Block>, b: Block) returns (r: bool)
      requires b in bbMap && Halts(parents, a, bbMap[b])
      ensures r <==> exists w :: SoleWalk(parents, w, bbMap[b]) && |w| > 1 && GetBlock(w[|w| - 1]) == a
    {
      var n := bbMap[b];
      ghost var done := [n];
      ghost var w :| SoleWalk(parents, w, n)
        && (Branches(parents, w[|w| - 1]) || (|w| > 1 && GetBlock(w[|w| - 1]) == a));
      var list := ParentsOf(n);
      var ps := set p | p in list;
      while |ps| == 1
        invariant SoleWalk(parents, done, bbMap[b]) && done[|done| - 1] == n
        invariant forall i :: 1 <= i < |done| ==> GetBlock(done[i]) != a
        invariant SoleWalk(parents, w, n)
        invariant Branches(parents, w[|w| - 1]) || (|w| > 1 && GetBlock(w[|w| - 1]) == a)
        invariant forall p :: p in ps <==> (n, p) in parents
        decreases |w|
      {
        var p :| p in ps;
        assert ps == {p} by { FewChildren(ps); }
        assert Sole(parents, n, p);
        HaltsStep(parents, a, n, w);
        w := w[1..];
        done := done + [p];
        n := p;
        if GetBlock(n) == a {
          assert SoleWalk(parents, done, bbMap[b]) && |done| > 1;
          return true;
        }
        list := ParentsOf(n);
        ps := set q | q in list;
      }
      assert Branches(parents, n) by {
        forall p ensures !Sole(parents, n, p) {
          assert Sole(parents, n, p) ==> ps == {p};
        }
      }
      forall v | SoleWalk(parents, v, bbMap[b]) && |v| > 1 ensures GetBlock(v[|v| - 1]) != a {
        NoOtherWalk(parents, a, bbMap[b], done, v);
      }
      return false;
    }

    /** What `controls` decides: whether a chain of governing blocks leads from b to a. */
    lemma ControlsMeansGoverning(f: Function, a: Block, b: Block)
      requires Built(f)
      ensures (exists w :: SoleWalk(parents, w, BlockNode(b)) && |w| > 1 && GetBlock(w[|w| - 1]) == Some(a))
              <==> Chain(GovernRelation(deps), b, a)
    {
      SoleWalkMeansGoverning(form, kids, parents, b, a);
    }

    /** What a positive answer of `controls` implies: a influences b, and no way up from b avoids a that
        comes to a parentless node or is as long as the walk. */
    lemma ControlsIsStronger(f: Function, a: Block, b: Block, w: seq<Node>)
      requires Built(f) && f.WellFormed()
      requires SoleWalk(parents, w, BlockNode(b)) && |w| > 1 && GetBlock(w[|w| - 1]) == Some(a)
      ensures Influences(f, a, b)
      ensures forall p ::
        |p| > 0 && p[0] == BlockNode(b) && Linked(parents, p) && (Parentless(parents, p[|p| - 1]) || |p| >= |w|) ==>
          BlockNode(a) in p
    {
      SoleWalkIsChain(parents, w, BlockNode(b));
      ChainsMeanDependence(f, b, a);
      forall p | |p| > 0 && p[0] == BlockNode(b) && Linked(parents, p)
        && (Parentless(parents, p[|p| - 1]) || |p| >= |w|)
        ensures BlockNode(a) in p
      {
        ChainsFollowSoleWalk(parents, w, BlockNode(b), p);
      }
    }

    /** `enclosingRegion` of a block: NULL for a block without node, and an assertion failure unless
        the block has exactly one parent. The assertion holds exactly for blocks with a dependence
        beyond the root edge. */
    method EnclosingRegion(ghost f: Function, b: Block) returns (r: Enclosing)
      requires Built(f)
      ensures r.NoNode? <==> b !in f.blocks
      ensures r.In? ==> r.region.Region? && (BlockNode(b), r.region) in parents
      ensures b in f.blocks ==> (r.In? <==> !Trivial(deps[b]))
    {
      if b !in bbMap { return NoNode; }
      OneRegionParent(form, kids, parents, b);
      var list := ParentsOf(bbMap[b]);
      var ps := set p | p in list;
      if !Trivial(deps[b]) {
        ghost var q: Node :| q.Region? && forall p :: (BlockNode(b), p) in parents <==> p == q;
        assert ps == {q};
      }
      if |ps| == 1 {
        var p :| p in ps;
        assert (BlockNode(b), p) in parents;
        r := if p.Region? then In(p) else AssertionFails;
      } else {
        r := AssertionFails;
      }
    }

    lemma ReachableGrounded(f: Function, pd: set<(Block, Block)>, p: seq<Block>, b: Block)
      requires BuiltOver(f, pd) && f.WellFormed() && f.PathBetween(p, f.Entry(), b)
      requires forall x :: x in f.blocks ==> (x, x) in pd
      ensures Grounded(parents, BlockNode(b))
    {
      forall i | 0 <= i < |p| ensures p[i] in deps { PathInBlocks(f, p, i); }
      PathGrounds(f, pd, form, kids, parents, p, b);
    }

    /** On a reachable block the walk of `controls` ends, whatever a is. */
    lemma ReachableHalts(f: Function, a: Option<Block>, b: Block)
      requires Built(f) && f.WellFormed() && f.Reachable(b)
      ensures Halts(parents, a, BlockNode(b))
    {
      var p :| f.PathBetween(p, f.Entry(), b);
      ReachableGrounded(f, PostDominance(f), p, b);
      GroundedMeansHalts(parents, a, BlockNode(b));
    }
  }

  // ----- a function on which `controls` does not end

  /** Block 0 returns; block 1, which nothing reaches, branches back to itself or to block 0. */
  const LOOP := Function([0, 1], map[0 := [], 1 := [1, 0]], {1})
  const LOOP_TREE := Tree(map[0 := None, 1 := Some(0)], map[0 := 0, 1 := 1])

  lemma LoopPostDominance()
    ensures LOOP.WellFormed() && PostDominance(LOOP) == {(0, 0), (1, 1), (0, 1)}
  {
    assert LOOP.Exit(0) && !LOOP.Exit(1);
    assert !LOOP.PostDominates(1, 0) by { assert LOOP.Path([0]) && LOOP.Exit([0][|[0]| - 1]); }
    forall p: seq<Block> | LOOP.Path(p) && LOOP.Exit(p[|p| - 1]) ensures 0 in p && p[0] in p {
      assert p[|p| - 1] in p;
    }
    assert LOOP.PostDominates(0, 0) && LOOP.PostDominates(0, 1) && LOOP.PostDominates(1, 1);
    forall y, x ensures (y, x) in PostDominance(LOOP) <==> (y, x) in {(0, 0), (1, 1), (0, 1)} {
      assert y in LOOP.blocks <==> y == 0 || y == 1;
      assert x in LOOP.blocks <==> x == 0 || x == 1;
    }
  }

  lemma LoopAncestry(pd: set<(Block, Block)>)
    requires pd == {(0, 0), (1, 1), (0, 1)}
    ensures Represents(LOOP_TREE, pd)
  {
    assert LOOP_TREE.Dominates(0, 1) && !LOOP_TREE.Dominates(1, 0);
  }

  /** The function meets every assumption `graphForFunction` makes. */
  lemma LoopTree()
    ensures TreeFor(LOOP, LOOP_TREE)
  {
    LoopPostDominance();
    LoopAncestry(PostDominance(LOOP));
    assert LOOP.PathBetween([0], 0, 0) && LOOP.PathBetween([1, 0], 1, 0) && LOOP.Exit(0);
  }

  lemma LoopDependences(g: Graph, pd: set<(Block, Block)>)
    requires g.Records(LOOP, pd) && pd == {(0, 0), (1, 1), (0, 1)}
    ensures g.deps == map[0 := ROOT_ONLY, 1 := {(True, BlockNode(1))}]
  {
    assert DependsVia(LOOP, pd, 1, 1, 1);
    assert forall b :: b in g.deps <==> b == 0 || b == 1;
    forall t, p ensures (t, p) in g.deps[0] <==> (t, p) in ROOT_ONLY {
      assert (t, p) in g.deps[0] <==> IsDependence(LOOP, pd, p, t, BlockNode(0));
    }
    forall t, p ensures (t, p) in g.deps[1] <==> (t, p) in {(True, BlockNode(1))} {
      assert (t, p) in g.deps[1] <==> IsDependence(LOOP, pd, p, t, BlockNode(1));
    }
    assert g.deps[0] == ROOT_ONLY && g.deps[1] == {(True, BlockNode(1))} by {
      forall d ensures d in g.deps[0] <==> d in ROOT_ONLY { assert d == (d.0, d.1); }
      forall d ensures d in g.deps[1] <==> d in {(True, BlockNode(1))} { assert d == (d.0, d.1); }
    }
  }

  /** Its graph, however it was built: block 1 depends on its own branch only, and asking whether block 0
      controls it never gets an answer. */
  lemma LoopNeverHalts(g: Graph)
    requires g.Built(LOOP)
    ensures g.deps == map[0 := ROOT_ONLY, 1 := {(True, BlockNode(1))}]
    ensures !Halts(g.parents, Some(0), BlockNode(1))
  {
    LoopPostDominance();
    LoopDependences(g, PostDominance(LOOP));
    SelfDependenceNeverHalts(g.form, g.kids, g.parents, 1, True, 0);
  }
}
