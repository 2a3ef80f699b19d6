module Wrappers {
  datatype Option<+T> = None | Some(value: T)
}

/** Control-flow graphs, their paths, and the two path-based dominance relations. */
module ControlFlow {

  type Block = int

  /** A function body: blocks in layout order (the first is the entry), the ordered successors
      of each block's terminator, and the blocks that end in a conditional branch. */
  datatype Function = Function(blocks: seq<Block>, succ: map<Block, seq<Block>>, conditional: set<Block>) {
    ghost predicate WellFormed() {
      && |blocks| > 0
      && (forall i, j :: 0 <= i < j < |blocks| ==> blocks[i] != blocks[j])
      && (forall b :: b in blocks <==> b in succ)
      && (forall b, s :: b in succ && s in succ[b] ==> s in blocks)
      && (forall b :: b in conditional ==> b in succ && |succ[b]| == 2)
    }

    function Entry(): Block
      requires |blocks| > 0
    {
      blocks[0]
    }

    ghost predicate Edge(a: Block, b: Block) {
      a in succ && b in succ[a]
    }

    ghost predicate Path(p: seq<Block>) {
      |p| > 0 && p[0] in blocks && forall i :: 0 <= i < |p| - 1 ==> Edge(p[i], p[i + 1])
    }

    ghost predicate PathBetween(p: seq<Block>, a: Block, b: Block) {
      Path(p) && p[0] == a && p[|p| - 1] == b
    }

    ghost predicate Exit(b: Block) {
      b in succ && succ[b] == []
    }

    ghost predicate Reachable(b: Block)
      requires |blocks| > 0
    {
      exists p :: PathBetween(p, Entry(), b)
    }

    /** y lies on every path from x to an exit. */
    ghost predicate PostDominates(y: Block, x: Block) {
      forall p :: Path(p) && p[0] == x && Exit(p[|p| - 1]) ==> y in p
    }

    /** d lies on every path from the entry to b. */
    ghost predicate Dominates(d: Block, b: Block)
      requires |blocks| > 0
    {
      forall p :: PathBetween(p, Entry(), b) ==> d in p
    }
  }

  lemma PathPrefix(f: Function, p: seq<Block>, n: nat)
    requires f.Path(p) && 0 < n <= |p|
    ensures f.Path(p[..n])
  {
  }

  lemma PathSnoc(f: Function, p: seq<Block>, b: Block)
    requires f.Path(p) && f.Edge(p[|p| - 1], b)
    ensures f.Path(p + [b])
  {
  }

  lemma PathInBlocks(f: Function, p: seq<Block>, i: nat)
    requires f.WellFormed() && f.Path(p) && i < |p|
    ensures p[i] in f.blocks
  {
    if i > 0 { assert f.Edge(p[i - 1], p[i]); }
  }

  /** The entry reaches itself, and whatever follows a reachable block is reachable. */
  lemma ReachableStep(f: Function, a: Block, b: Block)
    requires f.WellFormed() && f.Reachable(a) && f.Edge(a, b)
    ensures f.Reachable(b)
  {
    var p :| f.PathBetween(p, f.Entry(), a);
    PathSnoc(f, p, b);
    assert f.PathBetween(p + [b], f.Entry(), b);
  }

  lemma ReachableEntry(f: Function)
    requires f.WellFormed()
    ensures f.Reachable(f.Entry())
  {
    assert f.PathBetween([f.Entry()], f.Entry(), f.Entry());
  }
}

/** LLVM's post-dominator tree, taken as an input: parent links plus the depth of each node.
    `None` stands for "no real parent", whether the block is the root or hangs off the virtual root. */
module PostDominators {
  import opened Wrappers
  import opened ControlFlow

  datatype Tree = Tree(idom: map<Block, Option<Block>>, depth: map<Block, nat>) {
    ghost predicate WellFormed() {
      && depth.Keys == idom.Keys
      && forall b :: b in idom && idom[b].Some? ==> idom[b].value in idom && depth[idom[b].value] < depth[b]
    }

    /** y is x or an ancestor of x. */
    predicate Dominates(y: Block, x: Block)
      requires WellFormed() && x in idom
      decreases depth[x]
    {
      y == x || (idom[x].Some? && Dominates(y, idom[x].value))
    }

    /** The deepest node above both a and b; None is the virtual root. */
    function NearestCommon(a: Block, b: Block): (r: Option<Block>)
      requires WellFormed() && a in idom && b in idom
      ensures r.Some? ==> r.value in idom && Dominates(r.value, a) && Dominates(r.value, b)
      ensures forall y :: Dominates(y, a) && Dominates(y, b) ==> r.Some? && Dominates(y, r.value)
      decreases depth[a]
    {
      if Dominates(a, b) then Some(a)
      else if idom[a].None? then None
      else NearestCommon(idom[a].value, b)
    }
  }

  lemma {:induction false} AncestorInTree(t: Tree, y: Block, x: Block)
    requires t.WellFormed() && x in t.idom && t.Dominates(y, x)
    ensures y in t.idom && t.depth[y] <= t.depth[x]
    decreases t.depth[x]
  {
    if y != x { AncestorInTree(t, y, t.idom[x].value); }
  }

  lemma {:induction false} AncestorTransitive(t: Tree, z: Block, y: Block, x: Block)
    requires t.WellFormed() && x in t.idom && t.Dominates(y, x) && y in t.idom && t.Dominates(z, y)
    ensures t.Dominates(z, x)
    decreases t.depth[x]
  {
    if y != x { AncestorTransitive(t, z, y, t.idom[x].value); }
  }

  lemma AncestorAntisymmetric(t: Tree, x: Block, y: Block)
    requires t.WellFormed() && x in t.idom && y in t.idom && t.Dominates(x, y) && t.Dominates(y, x)
    ensures x == y
  {
    if x != y {
      AncestorInTree(t, x, t.idom[y].value);
      AncestorInTree(t, y, t.idom[x].value);
    }
  }

  /** The pairs (y, x) of blocks with y post-dominating x. */
  ghost function PostDominance(f: Function): set<(Block, Block)> {
    set y, x | y in f.blocks && x in f.blocks && f.PostDominates(y, x) :: (y, x)
  }

  /** Ancestry in the tree is the relation pd. */
  ghost predicate Represents(t: Tree, pd: set<(Block, Block)>) {
    && t.WellFormed()
    && forall y, x :: y in t.idom && x in t.idom ==> (t.Dominates(y, x) <==> (y, x) in pd)
  }

  /** What the pass may assume of LLVM's tree: every block is in it (so every block reaches an exit)
      and ancestry in the tree is post-dominance along paths. */
  ghost predicate TreeFor(f: Function, t: Tree) {
    && f.WellFormed()
    && (forall b :: b in t.idom <==> b in f.blocks)
    && Represents(t, PostDominance(f))
    && (forall b :: b in f.blocks ==> exists p, e :: f.PathBetween(p, b, e) && f.Exit(e))
  }
}
