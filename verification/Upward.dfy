/** Searching upward along parent links: what a closed search has seen, and walks along sole parents. */
module Upward {
  import opened Wrappers
  import opened ControlFlow
  import opened Chains
  import opened ControlDependence
  import opened Regions

  type Parents = set<(Node, Node)>

  function GetBlock(n: Node): Option<Block> {
    if n.BlockNode? then Some(n.block) else None
  }

  // ----- breadth-first search

  /** Queue entries that were already finished when queued or finished since. */
  function Stale(worklist: seq<Node>, fin: set<Node>): nat {
    if worklist == [] then 0 else (if worklist[0] in fin then 1 else 0) + Stale(worklist[1..], fin)
  }

  lemma {:induction false} StaleAppend(worklist: seq<Node>, fin: set<Node>, n: Node)
    requires n !in fin
    ensures Stale(worklist + [n], fin) == Stale(worklist, fin)
  {
    if worklist != [] {
      assert (worklist + [n])[1..] == worklist[1..] + [n];
      StaleAppend(worklist[1..], fin, n);
    }
  }

  lemma {:induction false} ClosedSearch(parents: Parents, seen: set<Node>, p: seq<Node>, x: Node, y: Node)
    requires forall c, q :: (c == x || c in seen) && (c, q) in parents ==> q in seen
    requires Via(parents, p, x, y)
    ensures y in seen
    decreases |p|
  {
    assert (p[0], p[1]) in parents;
    if |p| > 2 {
      LinkedTail(parents, p);
      ClosedSearch(parents, seen, p[1..], p[1], y);
    }
  }

  ghost function Targets(parents: Parents): set<Node> {
    set e | e in parents :: e.1
  }

  /** Everything queued or finished lies above start; finished nodes are not block a, and their
      parents are queued or finished. */
  ghost predicate Searching(parents: Parents, start: Node, a: Block, fin: set<Node>, worklist: seq<Node>) {
    && fin <= Targets(parents)
    && (forall x :: x in worklist ==> x in Targets(parents) && Chain(parents, start, x))
    && (forall x :: x in fin ==> GetBlock(x) != Some(a))
    && (forall c, p :: (c == start || c in fin) && (c, p) in parents ==> p in fin || p in worklist)
  }

  lemma SearchStart(parents: Parents, start: Node, a: Block, worklist: seq<Node>)
    requires forall p :: p in worklist <==> (start, p) in parents
    ensures Searching(parents, start, a, {}, worklist)
  {
    forall x | x in worklist ensures x in Targets(parents) && Chain(parents, start, x) {
      assert (start, x).1 in Targets(parents);
      ChainStep(parents, start, x);
    }
  }

  lemma SearchStep(parents: Parents, start: Node, a: Block, fin: set<Node>, worklist: seq<Node>, worklist': seq<Node>)
    requires Searching(parents, start, a, fin, worklist) && worklist != [] && GetBlock(worklist[0]) != Some(a)
    requires forall x :: x in worklist' <==>
      x in worklist[1..] || ((worklist[0], x) in parents && x !in fin + {worklist[0]})
    ensures Searching(parents, start, a, fin + {worklist[0]}, worklist')
  {
    var n := worklist[0];
    assert worklist == [n] + worklist[1..];
    forall x | (n, x) in parents ensures x in Targets(parents) && Chain(parents, start, x) {
      assert (n, x).1 in Targets(parents);
      ChainStep(parents, n, x);
      ChainTransitive(parents, start, n, x);
    }
  }

  lemma Shrinks<T>(s: set<T>, x: T)
    requires x in s
    ensures |s - {x}| < |s|
  {
  }

  /** The first measure: a node finished for the first time. */
  lemma FinishesOne(targets: set<Node>, fin: set<Node>, n: Node)
    requires n in targets && n !in fin
    ensures |targets - (fin + {n})| < |targets - fin|
  {
    Shrinks(targets - fin, n);
    assert targets - (fin + {n}) == targets - fin - {n};
  }

  lemma SearchDone(parents: Parents, start: Node, a: Block, fin: set<Node>)
    requires Searching(parents, start, a, fin, [])
    ensures !Chain(parents, start, BlockNode(a))
  {
    if Chain(parents, start, BlockNode(a)) {
      var p :| Via(parents, p, start, BlockNode(a));
      ClosedSearch(parents, fin, p, start, BlockNode(a));
    }
  }

  // ----- the sole-parent walk of `controls`

  ghost predicate Sole(parents: Parents, c: Node, p: Node) {
    (c, p) in parents && forall q :: (c, q) in parents ==> q == p
  }

  ghost predicate Branches(parents: Parents, c: Node) {
    forall p :: !Sole(parents, c, p)
  }

  ghost predicate Parentless(parents: Parents, n: Node) {
    forall q :: (n, q) !in parents
  }

  ghost predicate SoleWalk(parents: Parents, w: seq<Node>, n: Node) {
    |w| > 0 && w[0] == n && forall i :: 0 <= i < |w| - 1 ==> Sole(parents, w[i], w[i + 1])
  }

  /** The walk from n comes to a node with no sole parent, or meets block a on the way. */
  ghost predicate Halts(parents: Parents, a: Option<Block>, n: Node) {
    exists w :: SoleWalk(parents, w, n) && (Branches(parents, w[|w| - 1]) || (|w| > 1 && GetBlock(w[|w| - 1]) == a))
  }

  lemma HaltsStep(parents: Parents, a: Option<Block>, n: Node, w: seq<Node>)
    requires SoleWalk(parents, w, n)
    requires Branches(parents, w[|w| - 1]) || (|w| > 1 && GetBlock(w[|w| - 1]) == a)
    requires !Branches(parents, n)
    ensures |w| > 1 && Sole(parents, n, w[1]) && SoleWalk(parents, w[1..], w[1])
  {
  }

  /** When the walk does not halt, the loop of `controls` takes any number of rounds without an answer. */
  lemma {:induction false} OtherwiseRunsForever(parents: Parents, a: Option<Block>, n: Node, rounds: nat)
    returns (w: seq<Node>)
    requires !Halts(parents, a, n)
    ensures SoleWalk(parents, w, n) && |w| == rounds + 1
    ensures !Branches(parents, w[rounds])
    ensures forall i :: 1 <= i <= rounds ==> GetBlock(w[i]) != a
  {
    if rounds == 0 {
      w := [n];
    } else {
      var v := OtherwiseRunsForever(parents, a, n, rounds - 1);
      var p :| Sole(parents, v[rounds - 1], p);
      w := v + [p];
      forall i | 0 <= i < |w| - 1 ensures Sole(parents, w[i], w[i + 1]) {
        if i < rounds - 1 { assert w[i] == v[i] && w[i + 1] == v[i + 1]; }
      }
      assert SoleWalk(parents, w, n);
      forall i | 1 <= i <= rounds ensures GetBlock(w[i]) != a {
        if i < rounds { assert w[i] == v[i]; }
      }
    }
  }

  lemma SubsetSize<T>(s: set<T>, t: set<T>)
    requires s <= t
    ensures |s| <= |t|
  {
    if s != {} {
      var x :| x in s;
      SubsetSize(s - {x}, t - {x});
    }
  }

  /** A sequence longer than the set it draws from repeats an element. */
  lemma {:induction false} Pigeonhole<T>(w: seq<T>, s: set<T>) returns (i: nat, j: nat)
    requires |w| > |s| && forall x :: x in w ==> x in s
    ensures i < j < |w| && w[i] == w[j]
  {
    var last := w[|w| - 1];
    assert last in w;
    if k :| 0 <= k < |w| - 1 && w[k] == last {
      i, j := k, |w| - 1;
    } else {
      Shrinks(s, last);
      var v := w[..|w| - 1];
      forall x | x in v ensures x in s - {last} {
        assert x in w;
      }
      i, j := Pigeonhole(v, s - {last});
    }
  }

  lemma WalkGoesOn(parents: Parents, w: seq<Node>, n: Node, i: nat)
    requires SoleWalk(parents, w, n) && i < |w| - 1
    ensures !Branches(parents, w[i])
  {
    assert Sole(parents, w[i], w[i + 1]);
  }

  /** Some sole-parent walk from n comes back to a node of its own without meeting a after its start. */
  ghost predicate Circles(parents: Parents, a: Option<Block>, n: Node) {
    exists w, i, j :: Circle(parents, a, n, w, i, j)
  }

  ghost predicate Circle(parents: Parents, a: Option<Block>, n: Node, w: seq<Node>, i: nat, j: nat) {
    && SoleWalk(parents, w, n)
    && i < j < |w| && w[i] == w[j]
    && forall k :: 1 <= k < |w| ==> GetBlock(w[k]) != a
  }

  lemma {:induction false} StaysOnCircle(parents: Parents, a: Option<Block>, n: Node, w: seq<Node>, i: nat, j: nat,
                                         v: seq<Node>, k: nat)
    returns (m: nat)
    requires Circle(parents, a, n, w, i, j) && SoleWalk(parents, v, n) && k < |v|
    ensures m < j && v[k] == w[m] && (k > 0 ==> GetBlock(v[k]) != a)
  {
    if k == 0 {
      m := 0;
    } else {
      m := StaysOnCircle(parents, a, n, w, i, j, v, k - 1);
      assert Sole(parents, v[k - 1], v[k]) && Sole(parents, w[m], w[m + 1]);
      m := if m + 1 == j then i else m + 1;
    }
  }

  /** The walk of `controls` never ends exactly when it runs in a circle that avoids a. */
  lemma HaltsUnlessCircle(parents: Parents, a: Option<Block>, n: Node)
    ensures !Halts(parents, a, n) <==> Circles(parents, a, n)
  {
    if !Halts(parents, a, n) {
      var rounds := |Targets(parents)| + 1;
      var w := OtherwiseRunsForever(parents, a, n, rounds);
      var v := w[1..];
      forall x | x in v ensures x in Targets(parents) {
        var k :| 0 <= k < |v| && v[k] == x;
        assert Sole(parents, w[k], w[k + 1]);
        assert (w[k], x).1 in Targets(parents);
      }
      var i, j := Pigeonhole(v, Targets(parents));
      assert Circle(parents, a, n, w, i + 1, j + 1);
    }
    if Circles(parents, a, n) {
      var w, i: nat, j: nat :| Circle(parents, a, n, w, i, j);
      forall v | SoleWalk(parents, v, n)
        ensures !Branches(parents, v[|v| - 1]) && (|v| > 1 ==> GetBlock(v[|v| - 1]) != a)
      {
        var m := StaysOnCircle(parents, a, n, w, i, j, v, |v| - 1);
        WalkGoesOn(parents, w, n, m);
      }
    }
  }

  lemma SelfRegionParent(m: Form, b: Block, t: EdgeType, r: Node, p: Node)
    requires m.Valid() && r in m.table.key && m.table.key[r] == {(t, BlockNode(b))}
    ensures m.Parent(r, p) <==> p == if (BlockNode(b), t) in m.region then m.region[(BlockNode(b), t)] else BlockNode(b)
  {
    assert (t, BlockNode(b)) in m.table.key[r];
    assert forall y, u :: m.table.From(y, u, r) <==> y == BlockNode(b) && u == t;
  }

  /** A block whose only dependence is on itself: `controls` never answers for it, whatever other block is asked for. */
  lemma SelfDependenceNeverHalts(m: Form, kids: set<Kid>, parents: Parents, b: Block, t: EdgeType, a: Block)
    requires m.Valid() && m.Describes(kids, parents)
    requires b in m.deps && m.deps[b] == {(t, BlockNode(b))} && a != b
    ensures !Halts(parents, Some(a), BlockNode(b))
  {
    var n := BlockNode(b);
    var r := m.table.regionOf[m.deps[b]];
    assert (t, n) in m.deps[b] && m.table.From(n, t, r);
    forall p ensures (n, p) in parents <==> p == r { assert (n, p) in parents <==> m.Parent(n, p); }
    assert Sole(parents, n, r);
    var w;
    if (n, t) in m.region {
      var s := m.region[(n, t)];
      forall p ensures (r, p) in parents <==> p == s { SelfRegionParent(m, b, t, r, p); }
      forall p ensures (s, p) in parents <==> p == n { assert (s, p) in parents <==> m.Parent(s, p); }
      assert Sole(parents, r, s) && Sole(parents, s, n);
      w := [n, r, s, n];
    } else {
      forall p ensures (r, p) in parents <==> p == n { SelfRegionParent(m, b, t, r, p); }
      assert Sole(parents, r, n);
      w := [n, r, n];
    }
    assert Circle(parents, Some(a), n, w, 0, |w| - 1);
    HaltsUnlessCircle(parents, Some(a), n);
  }

  /** A parentless node somewhere above is enough for the walk to halt. */
  lemma {:induction false} GroundedHalts(parents: Parents, a: Option<Block>, p: seq<Node>, n: Node, top: Node)
    requires |p| > 0 && p[0] == n && p[|p| - 1] == top && Linked(parents, p)
    requires Parentless(parents, top)
    ensures Halts(parents, a, n)
    decreases |p|
  {
    if Branches(parents, n) {
      assert SoleWalk(parents, [n], n);
    } else {
      var q :| Sole(parents, n, q);
      assert (p[0], p[1]) in parents;
      var r := p[1..];
      LinkedTail(parents, p);
      GroundedHalts(parents, a, r, q, top);
      var w :| SoleWalk(parents, w, q) && (Branches(parents, w[|w| - 1]) || (|w| > 1 && GetBlock(w[|w| - 1]) == a));
      var v := [n] + w;
      forall i | 0 <= i < |v| - 1 ensures Sole(parents, v[i], v[i + 1]) {
        if i > 0 { assert v[i] == w[i - 1] && v[i + 1] == w[i]; }
      }
      assert SoleWalk(parents, v, n) && v[|v| - 1] == w[|w| - 1];
    }
  }

  /** Every way up from the foot of a sole-parent walk passes the walk's end, if it is as long as the walk
      or comes to a parentless node. */
  lemma {:induction false} ChainsFollowSoleWalk(parents: Parents, w: seq<Node>, n: Node, p: seq<Node>)
    requires SoleWalk(parents, w, n)
    requires |p| > 0 && p[0] == n && Linked(parents, p) && (Parentless(parents, p[|p| - 1]) || |p| >= |w|)
    ensures |w| <= |p| && w[|w| - 1] == p[|w| - 1]
    decreases |w|
  {
    if |w| > 1 {
      assert Sole(parents, w[0], w[1]);
      assert (p[0], p[1]) in parents;
      var v, q := w[1..], p[1..];
      forall i | 0 <= i < |v| - 1 ensures Sole(parents, v[i], v[i + 1]) {
        assert v[i] == w[i + 1] && v[i + 1] == w[i + 2];
      }
      LinkedTail(parents, p);
      ChainsFollowSoleWalk(parents, v, w[1], q);
    }
  }

  /** Two sole-parent walks from one node agree as far as both go. */
  lemma {:induction false} SoleWalksAgree(parents: Parents, w: seq<Node>, v: seq<Node>, n: Node, i: nat)
    requires SoleWalk(parents, w, n) && SoleWalk(parents, v, n) && i < |w| && i < |v|
    ensures w[i] == v[i]
  {
    if i > 0 {
      SoleWalksAgree(parents, w, v, n, i - 1);
      assert Sole(parents, w[i - 1], w[i]) && Sole(parents, v[i - 1], v[i]);
    }
  }

  /** A walk that ended at a branching node without meeting a leaves no walk that does. */
  lemma NoOtherWalk(parents: Parents, a: Option<Block>, start: Node, done: seq<Node>, w: seq<Node>)
    requires SoleWalk(parents, done, start) && (forall i :: 1 <= i < |done| ==> GetBlock(done[i]) != a)
    requires Branches(parents, done[|done| - 1])
    requires SoleWalk(parents, w, start) && |w| > 1
    ensures GetBlock(w[|w| - 1]) != a
  {
    SoleWalksAgree(parents, w, done, start, if |w| > |done| then |done| - 1 else |w| - 1);
    if |w| > |done| { WalkGoesOn(parents, w, start, |done| - 1); }
  }

  lemma SoleWalkIsChain(parents: Parents, w: seq<Node>, n: Node)
    requires SoleWalk(parents, w, n) && |w| > 1
    ensures Chain(parents, n, w[|w| - 1])
  {
    forall i | 0 <= i < |w| - 1 ensures (w[i], w[i + 1]) in parents { assert Sole(parents, w[i], w[i + 1]); }
    assert Via(parents, w, n, w[|w| - 1]);
  }

  // ----- reachable blocks are grounded

  ghost predicate Grounded(parents: Parents, n: Node) {
    exists top :: Parentless(parents, top) && ChainOrEqual(parents, n, top)
  }

  lemma GroundedStep(parents: Parents, n: Node, m: Node)
    requires Grounded(parents, m) && ChainOrEqual(parents, n, m)
    ensures Grounded(parents, n)
  {
    var top :| Parentless(parents, top) && ChainOrEqual(parents, m, top);
    if n != m && m != top { ChainTransitive(parents, n, m, top); }
    assert ChainOrEqual(parents, n, top);
  }

  lemma GroundedMeansHalts(parents: Parents, a: Option<Block>, n: Node)
    requires Grounded(parents, n)
    ensures Halts(parents, a, n)
  {
    var top :| Parentless(parents, top) && ChainOrEqual(parents, n, top);
    if n == top {
      GroundedHalts(parents, a, [n], n, top);
    } else {
      var p :| Via(parents, p, n, top);
      GroundedHalts(parents, a, p, n, top);
    }
  }

  /** A block that depends on the root edge reaches a parentless node: itself or the root. */
  lemma RootDependent(m: Form, kids: set<Kid>, parents: Parents, b: Block)
    requires m.Valid() && m.Describes(kids, parents)
    requires b in m.deps && (Other, Root) in m.deps[b]
    ensures Grounded(parents, BlockNode(b))
  {
    if m.deps[b] == ROOT_ONLY {
      RootOnlyLosesParent(m, kids, parents, b);
      assert Parentless(parents, BlockNode(b));
      assert ChainOrEqual(parents, BlockNode(b), BlockNode(b));
    } else {
      DependenceChain(m, kids, parents, b, Root);
      assert Parentless(parents, Root) by {
        forall q ensures (Root, q) !in parents { assert !m.Parent(Root, q); }
      }
      assert ChainOrEqual(parents, BlockNode(b), Root);
    }
  }

  /** Any block that post-dominates the end of an entry path is grounded: walk the path backwards to
      the first block it does not post-dominate, on which it therefore depends. */
  lemma {:induction false} PathGrounds(f: Function, pd: set<(Block, Block)>, m: Form, kids: set<Kid>, parents: Parents,
                                       p: seq<Block>, b: Block)
    requires m.Valid() && m.Describes(kids, parents)
    requires forall b, t, p :: b in m.deps ==> ((t, p) in m.deps[b] <==> IsDependence(f, pd, p, t, BlockNode(b)))
    requires forall x :: x in m.deps ==> (x, x) in pd
    requires |f.blocks| > 0 && f.Path(p) && p[0] == f.Entry() && (forall i :: 0 <= i < |p| ==> p[i] in m.deps)
    requires b in m.deps && (b, p[|p| - 1]) in pd
    ensures Grounded(parents, BlockNode(b))
    decreases |p|
  {
    if |p| == 1 {
      assert IsDependence(f, pd, Root, Other, BlockNode(b));
      RootDependent(m, kids, parents, b);
    } else {
      var q := p[..|p| - 1];
      var a := q[|q| - 1];
      PathPrefix(f, p, |p| - 1);
      assert f.Edge(p[|p| - 2], p[|p| - 1]);
      if (b, a) in pd {
        PathGrounds(f, pd, m, kids, parents, q, b);
      } else {
        var t := GetEdgeType(f, a, p[|p| - 1]);
        assert DependsVia(f, pd, b, a, p[|p| - 1]);
        assert IsDependence(f, pd, BlockNode(a), t, BlockNode(b));
        PathGrounds(f, pd, m, kids, parents, q, a);
        assert (t, BlockNode(a)) in m.deps[b];
        DependenceChain(m, kids, parents, b, BlockNode(a));
        GroundedStep(parents, BlockNode(b), BlockNode(a));
      }
    }
  }
}
