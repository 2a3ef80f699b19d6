/** The vocabulary of the control dependence graph, and what its edges are supposed to mean. */
module ControlDependence {
  import opened Wrappers
  import opened ControlFlow
  import opened PostDominators
  import opened Chains

  datatype EdgeType = True | False | Other

  /** The identity of a node object: the root region, a block's node, or an allocated region. */
  datatype Node = Root | BlockNode(block: Block) | Region(id: nat)

  type Kid = (Node, EdgeType, Node)
  type Dependences = set<(EdgeType, Node)>

  const ROOT_ONLY: Dependences := {(Other, Root)}

  /** c is a child of p under some edge type. */
  predicate HasChild(kids: set<Kid>, p: Node, c: Node) {
    exists t :: (p, t, c) in kids
  }

  /** p carries some dependence of the set. */
  predicate Carries(ds: Dependences, p: Node) {
    exists t :: (t, p) in ds
  }

  function ChildrenBy(kids: set<Kid>, x: Node, t: EdgeType): (children: set<Node>)
    ensures forall c :: c in children <==> (x, t, c) in kids
  {
    var children := set k | k in kids && k.0 == x && k.1 == t :: k.2;
    assert forall c :: (x, t, c) in kids ==> (x, t, c).2 in children;
    children
  }

  /** Parent sets and child sets are mutually inverse. */
  ghost predicate Mirror(kids: set<Kid>, parents: set<(Node, Node)>) {
    forall c, p :: (c, p) in parents <==> HasChild(kids, p, c)
  }

  function GetEdgeType(f: Function, a: Block, b: Block): EdgeType {
    if a in f.conditional && a in f.succ && |f.succ[a]| == 2 then
      if f.succ[a][0] == b then True else False
    else
      Other
  }

  /** Ferrante, Ottenstein and Warren: y post-dominates the successor b of x but does not
      strictly post-dominate x itself. */
  ghost predicate DependsVia(f: Function, pd: set<(Block, Block)>, y: Block, x: Block, b: Block) {
    f.Edge(x, b) && (y, b) in pd && !(y != x && (y, x) in pd)
  }

  ghost predicate Depends(f: Function, pd: set<(Block, Block)>, y: Block, x: Block) {
    exists b :: DependsVia(f, pd, y, x, b)
  }

  /** x ends in a conditional branch. */
  ghost predicate Splits(f: Function, x: Block) {
    x in f.conditional && x in f.succ && |f.succ[x]| == 2
  }

  /** The outcome on which y depends: x branches to its first successor when true and to its second when
      false; a false outcome that leads where the true one does counts as true; and whatever depends
      on a block without a conditional branch depends on it unconditionally. */
  ghost predicate DependsTyped(f: Function, pd: set<(Block, Block)>, y: Block, t: EdgeType, x: Block) {
    match t
    case True => Splits(f, x) && DependsVia(f, pd, y, x, f.succ[x][0])
    case False => Splits(f, x) && f.succ[x][1] != f.succ[x][0] && DependsVia(f, pd, y, x, f.succ[x][1])
    case Other => !Splits(f, x) && Depends(f, pd, y, x)
  }

  /** The type under which an edge is filed is that of the outcome. */
  lemma EdgeTypeIsOutcome(f: Function, pd: set<(Block, Block)>, y: Block, t: EdgeType, x: Block)
    ensures DependsTyped(f, pd, y, t, x) <==> exists b :: DependsVia(f, pd, y, x, b) && GetEdgeType(f, x, b) == t
  {
  }

  /** All pairs (y, x) with y directly control dependent on x. */
  ghost function ControlRelation(f: Function): set<(Block, Block)> {
    RelationOver(f, PostDominance(f))
  }

  ghost function RelationOver(f: Function, pd: set<(Block, Block)>): set<(Block, Block)> {
    set y, x | y in f.blocks && x in f.blocks && Depends(f, pd, y, x) :: (y, x)
  }

  /** The meaning of `influences(a, b)`: a non-empty chain of control dependences leads from b up to a. */
  ghost predicate Influences(f: Function, a: Block, b: Block) {
    Chain(ControlRelation(f), b, a)
  }

  lemma InfluencesTransitive(f: Function, a: Block, b: Block, c: Block)
    requires Influences(f, a, b) && Influences(f, b, c)
    ensures Influences(f, a, c)
  {
    ChainTransitive(ControlRelation(f), c, b, a);
  }

  /** What the child edge p -t-> c of the freshly built graph stands for. */
  ghost predicate IsDependence(f: Function, pd: set<(Block, Block)>, p: Node, t: EdgeType, c: Node) {
    c.BlockNode? &&
    match p
    case Root => t == Other && |f.blocks| > 0 && (c.block, f.Entry()) in pd
    case BlockNode(x) => DependsTyped(f, pd, c.block, t, x)
    case Region(_) => false
  }

  /** The graph before regions: its child edges are exactly the dependences, and parents mirror them. */
  ghost predicate Dependent(f: Function, pd: set<(Block, Block)>, kids: set<Kid>, parents: set<(Node, Node)>) {
    && (forall p, t, c :: (p, t, c) in kids <==> IsDependence(f, pd, p, t, c))
    && Mirror(kids, parents)
  }

  // ----- the construction, edge by edge, in terms of the tree

  /** Nodes on the tree walk from b upward, stopping below `stop`. */
  ghost function WalkKids(t: Tree, p: Node, ty: EdgeType, b: Block, stop: Option<Block>): set<Kid>
    requires t.WellFormed() && b in t.idom && (stop.Some? ==> stop.value in t.idom)
  {
    set y | y in t.idom && t.Dominates(y, b) && !(stop.Some? && t.Dominates(y, stop.value)) :: (p, ty, BlockNode(y))
  }

  ghost function EdgeKids(t: Tree, a: Block, ty: EdgeType, b: Block): set<Kid>
    requires t.WellFormed() && a in t.idom && b in t.idom
  {
    set y | y in t.idom && t.Dominates(y, b) && !(y != a && t.Dominates(y, a)) :: (BlockNode(a), ty, BlockNode(y))
  }

  lemma WalkStep(t: Tree, p: Node, ty: EdgeType, b: Block, cur: Block)
    requires t.WellFormed() && b in t.idom && cur in t.idom && t.Dominates(cur, b)
    ensures t.idom[cur].Some? ==> t.Dominates(t.idom[cur].value, b)
    ensures WalkKids(t, p, ty, b, t.idom[cur]) == WalkKids(t, p, ty, b, Some(cur)) + {(p, ty, BlockNode(cur))}
  {
    var up := t.idom[cur];
    if up.Some? {
      AncestorTransitive(t, up.value, cur, b);
      if t.Dominates(cur, up.value) { AncestorInTree(t, cur, up.value); }
    }
  }

  /** The walk from b to the nearest common ancestor of a and b, plus a itself when it is that
      ancestor, visits exactly the nodes that depend on the edge a -> b. */
  lemma WalkToCommonAncestor(t: Tree, a: Block, ty: EdgeType, b: Block)
    requires t.WellFormed() && a in t.idom && b in t.idom
    ensures
      var l := t.NearestCommon(a, b);
      EdgeKids(t, a, ty, b)
      == WalkKids(t, BlockNode(a), ty, b, l) + (if l == Some(a) then {(BlockNode(a), ty, BlockNode(a))} else {})
  {
    var l := t.NearestCommon(a, b);
    forall y | y in t.idom
      ensures t.Dominates(y, b) && !(y != a && t.Dominates(y, a))
              <==> (t.Dominates(y, b) && !(l.Some? && t.Dominates(y, l.value))) || (l == Some(a) && y == a)
    {
      if l.Some? && t.Dominates(y, l.value) {
        AncestorTransitive(t, y, l.value, a);
        AncestorTransitive(t, y, l.value, b);
        if y == a { AncestorAntisymmetric(t, a, l.value); }
      }
    }
  }

  /** A skipped edge, whose target strictly post-dominates its source, carries no dependence. */
  lemma SkippedEdge(t: Tree, a: Block, ty: EdgeType, b: Block)
    requires t.WellFormed() && a in t.idom && b in t.idom && a != b && t.Dominates(b, a)
    ensures EdgeKids(t, a, ty, b) == {}
  {
    forall y | y in t.idom && t.Dominates(y, b) ensures y != a && t.Dominates(y, a) {
      AncestorTransitive(t, y, b, a);
      if y == a { AncestorAntisymmetric(t, a, b); }
    }
  }

  /** The children collected from a list of CFG edges. */
  ghost predicate Collected(f: Function, pd: set<(Block, Block)>, edges: set<(Block, Block)>, kids: set<Kid>) {
    forall p, ty, c :: (p, ty, c) in kids <==>
      p.BlockNode? && c.BlockNode?
      && exists b :: (p.block, b) in edges && GetEdgeType(f, p.block, b) == ty && DependsVia(f, pd, c.block, p.block, b)
  }

  lemma CollectEdge(f: Function, t: Tree, pd: set<(Block, Block)>, edges: set<(Block, Block)>, kids: set<Kid>, a: Block,
                    b: Block)
    requires Represents(t, pd) && a in t.idom && b in t.idom && f.Edge(a, b)
    requires forall y, x :: (y, x) in pd ==> y in t.idom
    requires Collected(f, pd, edges, kids)
    ensures Collected(f, pd, edges + {(a, b)}, kids + EdgeKids(t, a, GetEdgeType(f, a, b), b))
  {
  }

  /** Together with the walk from the entry, the children of all edges are exactly the dependences. */
  lemma DependencesComplete(f: Function, t: Tree, pd: set<(Block, Block)>, edges: set<(Block, Block)>,
                            collected: set<Kid>,
                            kids: set<Kid>, parents: set<(Node, Node)>)
    requires Represents(t, pd) && |f.blocks| > 0 && f.Entry() in t.idom
    requires forall y, x :: (y, x) in pd ==> y in t.idom && x in t.idom
    requires forall a, b :: (a, b) in edges <==> f.Edge(a, b)
    requires Collected(f, pd, edges, collected)
    requires kids == collected + WalkKids(t, Root, Other, f.Entry(), None)
    requires Mirror(kids, parents)
    ensures Dependent(f, pd, kids, parents)
  {
  }
}
