/** What a positive answer of `controls` means in terms of dependence sets. */
module Governing {
  import opened ControlFlow
  import opened Wrappers
  import opened Chains
  import opened ControlDependence
  import opened Regions
  import opened Upward

  /** Two blocks with different dependence sets depend on x by t. */
  ghost predicate Shared(deps: DependenceMap, x: Node, t: EdgeType) {
    exists b, c :: b in deps && c in deps && deps[b] != deps[c] && (t, x) in deps[b] && (t, x) in deps[c]
  }

  /** b depends on both outcomes of x, and shares each with a block whose dependences differ. */
  ghost predicate Torn(deps: DependenceMap, x: Block, b: Block)
    requires b in deps
  {
    forall t :: t != Other ==> (t, BlockNode(x)) in deps[b] && Shared(deps, BlockNode(x), t)
  }

  /** Every dependence of b is on x, and b is not torn between the outcomes of x. */
  ghost predicate Governs(deps: DependenceMap, x: Block, b: Block) {
    b in deps && deps[b] != {} && (forall t, p :: (t, p) in deps[b] ==> p == BlockNode(x)) && !Torn(deps, x, b)
  }

  /** All pairs (b, x) with x governing b. */
  ghost function GovernRelation(deps: DependenceMap): set<(Block, Block)> {
    set b, x | b in deps && x in deps && Governs(deps, x, b) :: (b, x)
  }

  lemma SplitIsShared(m: Form, x: Block, t: EdgeType)
    requires m.Valid() && m.FullySplit() && x in m.deps && t != Other
    ensures (BlockNode(x), t) in m.region <==> Shared(m.deps, BlockNode(x), t)
  {
    CrowdedMeans(m.table, m.deps, m.next, BlockNode(x), t);
  }

  lemma GovernorInside(m: Form, x: Block, b: Block)
    requires m.Valid() && Governs(m.deps, x, b)
    ensures x in m.deps && !Trivial(m.deps[b]) && (b, x) in GovernRelation(m.deps)
  {
    var d :| d in m.deps[b];
    assert d == (d.0, d.1) && d.1 == BlockNode(x);
    assert (d.0, BlockNode(x)) in m.deps[b];
    assert ROOT_ONLY == {(Other, Root)} && (Other, Root) in ROOT_ONLY;
  }

  /** The parents of the region of a dependence set: a split region for each split dependence, and every
      node depended on with none of its dependences split. */
  lemma RegionParents(m: Form, b: Block, r: Node, p: Node)
    requires m.Valid() && b in m.deps && r in m.table.key && m.table.key[r] == m.deps[b]
    ensures m.Parent(r, p) <==>
      (p in m.owner && (m.owner[p].1, m.owner[p].0) in m.deps[b])
      || (p !in m.owner && Carries(m.deps[b], p) && forall t :: (t, p) in m.deps[b] ==> (p, t) !in m.region)
  {
    assert forall y, t :: m.table.From(y, t, r) <==> (t, y) in m.deps[b];
  }

  /** Whatever b depends on shows up among the parents of its region, as itself or as its split region. */
  lemma ShowsUp(m: Form, b: Block, r: Node, t: EdgeType, y: Node) returns (p: Node)
    requires m.Valid() && b in m.deps && r in m.table.key && m.table.key[r] == m.deps[b] && (t, y) in m.deps[b]
    ensures m.Parent(r, p) && if p in m.owner then m.owner[p].0 == y else p == y
    ensures (y, t) in m.region ==> p in m.owner && m.owner[p] == (y, t)
  {
    if (y, t) in m.region {
      p := m.region[(y, t)];
      assert m.owner[p] == (y, t);
      RegionParents(m, b, r, p);
    } else if u :| (u, y) in m.deps[b] && (y, u) in m.region {
      p := m.region[(y, u)];
      assert m.owner[p] == (y, u);
      RegionParents(m, b, r, p);
    } else {
      p := y;
      assert y !in m.owner by { assert y in m.owner ==> y.Region?; }
      RegionParents(m, b, r, y);
    }
  }

  /** A governed block's walk goes to its governor, through its region and perhaps a split region. */
  lemma GovernedWalk(m: Form, kids: set<Kid>, parents: Parents, x: Block, b: Block) returns (w: seq<Node>)
    requires m.Valid() && m.Describes(kids, parents) && m.FullySplit() && Governs(m.deps, x, b)
    ensures SoleWalk(parents, w, BlockNode(b)) && |w| > 1 && w[|w| - 1] == BlockNode(x)
  {
    GovernorInside(m, x, b);
    var n, r := BlockNode(x), m.table.regionOf[m.deps[b]];
    assert m.table.key[r] == m.deps[b];
    forall p ensures (BlockNode(b), p) in parents <==> p == r {
      assert (BlockNode(b), p) in parents <==> m.Parent(BlockNode(b), p);
    }
    assert Sole(parents, BlockNode(b), r);
    var d :| d in m.deps[b];
    assert d == (d.0, n) && (d.0, n) in m.deps[b];
    if t :| (t, n) in m.deps[b] && (n, t) in m.region {
      var s := m.region[(n, t)];
      forall p ensures (r, p) in parents <==> p == s { OnlySplit(m, b, r, x, t, p); }
      forall p ensures (s, p) in parents <==> p == n { assert (s, p) in parents <==> m.Parent(s, p); }
      assert Sole(parents, r, s) && Sole(parents, s, n);
      w := [BlockNode(b), r, s, n];
    } else {
      forall p ensures (r, p) in parents <==> p == n {
        RegionParents(m, b, r, p);
        assert (r, p) in parents <==> m.Parent(r, p);
      }
      assert Sole(parents, r, n);
      w := [BlockNode(b), r, n];
    }
  }

  lemma OnlySplit(m: Form, b: Block, r: Node, x: Block, t: EdgeType, p: Node)
    requires m.Valid() && m.FullySplit() && Governs(m.deps, x, b) && r in m.table.key && m.table.key[r] == m.deps[b]
    requires (t, BlockNode(x)) in m.deps[b] && (BlockNode(x), t) in m.region
    ensures m.Parent(r, p) <==> p == m.region[(BlockNode(x), t)]
  {
    GovernorInside(m, x, b);
    RegionParents(m, b, r, p);
    var n := BlockNode(x);
    if p in m.owner && (m.owner[p].1, m.owner[p].0) in m.deps[b] && m.owner[p].1 != t {
      var u := m.owner[p].1;
      assert m.owner[p] == (n, u) && (n, u) in m.region;
      SplitIsShared(m, x, t);
      SplitIsShared(m, x, u);
      assert Torn(m.deps, x, b);
      assert false;
    }
  }

  /** The other direction: the first block a sole-parent walk comes to governs the one it started from. */
  lemma FirstBlockGoverns(m: Form, kids: set<Kid>, parents: Parents, w: seq<Node>, b: Block) returns (j: nat)
    requires m.Valid() && m.Describes(kids, parents) && m.FullySplit()
    requires SoleWalk(parents, w, BlockNode(b)) && |w| > 1 && w[|w| - 1].BlockNode?
    ensures 0 < j < |w| && w[j].BlockNode? && Governs(m.deps, w[j].block, b)
  {
    assert Sole(parents, w[0], w[1]) && m.Parent(BlockNode(b), w[1]);
    var r := w[1];
    assert r == m.table.regionOf[m.deps[b]] && m.table.key[r] == m.deps[b] && r.Region?;
    assert Sole(parents, w[1], w[2]);
    var p := w[2];
    forall q | m.Parent(r, q) ensures q == p { assert (r, q) in parents; }
    assert m.Parent(r, p);
    RegionParents(m, b, r, p);
    if p in m.owner {
      var y := m.owner[p].0;
      assert m.owner[p] in m.region && y.BlockNode?;
      assert Sole(parents, w[2], w[3]) && m.Parent(p, w[3]);
      SoleParentGoverns(m, b, r, p, y);
      j := 3;
    } else {
      forall q ensures (Root, q) !in parents { assert !m.Parent(Root, q); }
      assert |w| == 3 || Sole(parents, w[2], w[3]);
      SoleParentGoverns(m, b, r, p, p);
      j := 2;
    }
  }

  lemma SoleParentGoverns(m: Form, b: Block, r: Node, p: Node, y: Node)
    requires m.Valid() && m.FullySplit() && b in m.deps && r in m.table.key && m.table.key[r] == m.deps[b]
    requires m.Parent(r, p) && (forall q :: m.Parent(r, q) ==> q == p)
    requires y.BlockNode? && y == if p in m.owner then m.owner[p].0 else p
    ensures Governs(m.deps, y.block, b)
  {
    RegionParents(m, b, r, p);
    forall t, z | (t, z) in m.deps[b] ensures z == y { var q := ShowsUp(m, b, r, t, z); }
    var t :| (t, y) in m.deps[b];
    assert (t, y) in m.deps[b] && y.block in m.deps;
    if Torn(m.deps, y.block, b) {
      SplitIsShared(m, y.block, True);
      SplitIsShared(m, y.block, False);
      var q := ShowsUp(m, b, r, True, y);
      var q' := ShowsUp(m, b, r, False, y);
    }
  }

  lemma SoleWalkAppend(parents: Parents, w: seq<Node>, v: seq<Node>, n: Node)
    requires SoleWalk(parents, w, n) && SoleWalk(parents, v, w[|w| - 1])
    ensures SoleWalk(parents, w + v[1..], n) && (w + v[1..])[|w| + |v| - 2] == v[|v| - 1]
  {
    var s := w + v[1..];
    forall i | 0 <= i < |s| - 1 ensures Sole(parents, s[i], s[i + 1]) {
      if i < |w| - 1 {
        assert s[i] == w[i] && s[i + 1] == w[i + 1];
      } else {
        var k := i - (|w| - 1);
        assert s[i] == v[k] && s[i + 1] == v[k + 1];
      }
    }
  }

  lemma {:induction false} WalkToChain(m: Form, kids: set<Kid>, parents: Parents, w: seq<Node>, b: Block, a: Block)
    requires m.Valid() && m.Describes(kids, parents) && m.FullySplit()
    requires SoleWalk(parents, w, BlockNode(b)) && |w| > 1 && w[|w| - 1] == BlockNode(a)
    ensures Chain(GovernRelation(m.deps), b, a)
    decreases |w|
  {
    var j := FirstBlockGoverns(m, kids, parents, w, b);
    var x := w[j].block;
    GovernorInside(m, x, b);
    if j < |w| - 1 {
      var v := w[j..];
      forall i | 0 <= i < |v| - 1 ensures Sole(parents, v[i], v[i + 1]) {
        assert v[i] == w[j + i] && v[i + 1] == w[j + i + 1];
      }
      WalkToChain(m, kids, parents, v, x, a);
      ChainCons(GovernRelation(m.deps), b, x, a);
    } else {
      ChainStep(GovernRelation(m.deps), b, a);
    }
  }

  lemma {:induction false} ChainToWalk(m: Form, kids: set<Kid>, parents: Parents, p: seq<Block>, b: Block, a: Block)
    returns (w: seq<Node>)
    requires m.Valid() && m.Describes(kids, parents) && m.FullySplit() && Via(GovernRelation(m.deps), p, b, a)
    ensures SoleWalk(parents, w, BlockNode(b)) && |w| > 1 && w[|w| - 1] == BlockNode(a)
    decreases |p|
  {
    assert (p[0], p[1]) in GovernRelation(m.deps);
    w := GovernedWalk(m, kids, parents, p[1], b);
    if |p| > 2 {
      LinkedTail(GovernRelation(m.deps), p);
      var v := ChainToWalk(m, kids, parents, p[1..], p[1], a);
      SoleWalkAppend(parents, w, v, BlockNode(b));
      w := w + v[1..];
    }
  }

  /** A sole-parent walk leads from b to a exactly when a chain of governing blocks does. */
  lemma SoleWalkMeansGoverning(m: Form, kids: set<Kid>, parents: Parents, b: Block, a: Block)
    requires m.Valid() && m.Describes(kids, parents) && m.FullySplit()
    ensures (exists w :: SoleWalk(parents, w, BlockNode(b)) && |w| > 1 && GetBlock(w[|w| - 1]) == Some(a))
            <==> Chain(GovernRelation(m.deps), b, a)
  {
    if w :| SoleWalk(parents, w, BlockNode(b)) && |w| > 1 && GetBlock(w[|w| - 1]) == Some(a) {
      WalkToChain(m, kids, parents, w, b, a);
    }
    if Chain(GovernRelation(m.deps), b, a) {
      var p :| Via(GovernRelation(m.deps), p, b, a);
      var w := ChainToWalk(m, kids, parents, p, b, a);
      assert GetBlock(w[|w| - 1]) == Some(a);
    }
  }
}
