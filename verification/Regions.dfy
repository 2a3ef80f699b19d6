/** The shape of the graph while regions are inserted, and why it keeps its meaning. */
module Regions {
  import opened ControlFlow
  import opened Chains
  import opened ControlDependence

  /** For each block, its dependences before the rewrite. */
  type DependenceMap = map<Block, Dependences>

  predicate Trivial(ds: Dependences) {
    ds == {} || ds == ROOT_ONLY
  }

  ghost predicate ClosedMap(deps: DependenceMap) {
    forall b, t, p :: b in deps && (t, p) in deps[b] ==> p.Root? || (p.BlockNode? && p.block in deps)
  }

  /** deps lists, per block, exactly the incoming child edges. */
  ghost predicate Lists(deps: DependenceMap, kids: set<Kid>) {
    forall p, t, c :: (p, t, c) in kids <==> c.BlockNode? && c.block in deps && (t, p) in deps[c.block]
  }

  /** The regions made so far: `regionOf` is cdMap, `key` is its inverse without the root entry. */
  datatype Table = Table(regionOf: map<Dependences, Node>, key: map<Node, Dependences>) {
    ghost predicate Valid(deps: DependenceMap, visited: set<Block>, next: nat) {
      && ROOT_ONLY in regionOf && regionOf[ROOT_ONLY] == Root
      && (forall ds :: ds in regionOf && ds != ROOT_ONLY ==> regionOf[ds] in key && key[regionOf[ds]] == ds)
      && (forall r :: r in key ==>
            r.Region? && r.id < next && key[r] != ROOT_ONLY && key[r] in regionOf && regionOf[key[r]] == r)
      && (forall r :: r in key ==> exists b :: b in visited && b in deps && deps[b] == key[r])
      && (forall b :: b in visited ==> b in deps && deps[b] in regionOf)
    }

    ghost predicate ParentNow(deps: DependenceMap, visited: set<Block>, c: Node, p: Node) {
      match c
      case Root => false
      case BlockNode(b) =>
        b in deps &&
        if b in visited then !Trivial(deps[b]) && deps[b] in regionOf && p == regionOf[deps[b]]
        else Carries(deps[b], p)
      case Region(_) => c in key && Carries(key[c], p)
    }

    ghost predicate ChildNow(deps: DependenceMap, visited: set<Block>, p: Node, t: EdgeType, c: Node) {
      match c
      case Root => false
      case BlockNode(b) =>
        b in deps &&
        if b in visited then t == Other && deps[b] != {} && deps[b] in regionOf && p == regionOf[deps[b]]
        else (t, p) in deps[b]
      case Region(_) => c in key && (t, p) in key[c]
    }

    /** c is the region of a dependence set that holds (t, x). */
    ghost predicate From(x: Node, t: EdgeType, c: Node) {
      c in key && (t, x) in key[c]
    }

    /** Two different regions hang under x by t. */
    ghost predicate Crowded(x: Node, t: EdgeType) {
      exists c, d :: c != d && From(x, t, c) && From(x, t, d)
    }

    /** The edges while the blocks in `visited` already hang under their regions. */
    ghost predicate Grouped(deps: DependenceMap, visited: set<Block>, kids: set<Kid>, parents: set<(Node, Node)>) {
      && (forall c, p :: (c, p) in parents <==> ParentNow(deps, visited, c, p))
      && (forall p, t, c :: (p, t, c) in kids <==> ChildNow(deps, visited, p, t, c))
    }
  }

  ghost function AttachKids(ds: Dependences, region: Node): set<Kid> {
    set d | d in ds :: (d.1, d.0, region)
  }

  ghost function AttachParents(ds: Dependences, region: Node): set<(Node, Node)> {
    set d | d in ds :: (region, d.1)
  }

  /** Nothing visited: the plain dependence graph. */
  lemma GroupStart(deps: DependenceMap, kids: set<Kid>, parents: set<(Node, Node)>)
    requires Lists(deps, kids) && Mirror(kids, parents)
    ensures Table(map[ROOT_ONLY := Root], map[]).Grouped(deps, {}, kids, parents)
    ensures Table(map[ROOT_ONLY := Root], map[]).Valid(deps, {}, 0)
  {
  }

  /** A block not yet visited still has exactly its original edges. */
  lemma Unvisited(tb: Table, deps: DependenceMap, visited: set<Block>, kids: set<Kid>, parents: set<(Node, Node)>,
                  b: Block)
    requires tb.Grouped(deps, visited, kids, parents) && b in deps && b !in visited
    ensures forall p, t :: (p, t, BlockNode(b)) in kids <==> (t, p) in deps[b]
    ensures forall p :: (BlockNode(b), p) in parents <==> HasChild(kids, p, BlockNode(b))
  {
  }

  /** Allocating a region for a new dependence set. */
  lemma GroupRegion(tb: Table, deps: DependenceMap, visited: set<Block>, next: nat, kids: set<Kid>,
                    parents: set<(Node, Node)>, b: Block)
    requires tb.Valid(deps, visited, next) && tb.Grouped(deps, visited, kids, parents)
    requires b in deps && deps[b] !in tb.regionOf
    ensures
      var r := Region(next);
      var tb' := Table(tb.regionOf[deps[b] := r], tb.key[r := deps[b]]);
      tb'.Grouped(deps, visited, kids + AttachKids(deps[b], r), parents + AttachParents(deps[b], r))
  {
  }

  lemma TableGrow(tb: Table, deps: DependenceMap, visited: set<Block>, next: nat, b: Block)
    requires tb.Valid(deps, visited, next) && b in deps
    ensures deps[b] in tb.regionOf ==> tb.Valid(deps, visited + {b}, next)
    ensures deps[b] !in tb.regionOf ==>
              var r := Region(next);
              Table(tb.regionOf[deps[b] := r], tb.key[r := deps[b]]).Valid(deps, visited + {b}, next + 1)
  {
  }

  lemma RegionNotADependence(tb: Table, deps: DependenceMap, visited: set<Block>, next: nat, b: Block)
    requires ClosedMap(deps) && tb.Valid(deps, visited, next) && b in visited
    ensures Carries(deps[b], tb.regionOf[deps[b]]) ==> deps[b] == ROOT_ONLY && tb.regionOf[deps[b]] == Root
  {
  }

  /** Hanging block b under its region. Removing the old parents last is what strips a block whose
      only dependence is the root edge of its one parent. */
  lemma GroupMove(tb: Table, deps: DependenceMap, visited: set<Block>, next: nat, kids: set<Kid>,
                  parents: set<(Node, Node)>, b: Block)
    requires ClosedMap(deps)
    requires tb.Valid(deps, visited + {b}, next) && tb.Grouped(deps, visited, kids, parents)
    requires b in deps && b !in visited
    ensures
      var n := BlockNode(b);
      var r := tb.regionOf[deps[b]];
      tb.Grouped(deps, visited + {b},
                 kids - AttachKids(deps[b], n) + (if deps[b] == {} then {} else {(r, Other, n)}),
                 parents + (if deps[b] == {} then {} else {(n, r)}) - AttachParents(deps[b], n))
  {
  }

  // ----- splitting the true and false children of blocks

  /** The graph while true and false children are split off. `region` maps each split (block node, edge
      type) to the region that took the children over, and `owner` is its inverse. */
  datatype Form = Form(deps: DependenceMap, table: Table, region: map<(Node, EdgeType), Node>,
                       owner: map<Node, (Node, EdgeType)>, next: nat)
  {
    ghost predicate Valid() {
      && ClosedMap(deps)
      && table.Valid(deps, deps.Keys, next)
      && (forall k :: k in region ==>
            k.0.BlockNode? && k.1 != Other && table.Crowded(k.0, k.1) && region[k] in owner && owner[region[k]] == k)
      && (forall s :: s in owner ==>
            s.Region? && s.id < next && s !in table.key && owner[s] in region && region[owner[s]] == s)
    }

    ghost predicate Parent(c: Node, p: Node) {
      match c
      case Root => false
      case BlockNode(_) => table.ParentNow(deps, deps.Keys, c, p)
      case Region(_) =>
        if c in owner then p == owner[c].0
        else
          c in table.key &&
          if p in owner then table.From(owner[p].0, owner[p].1, c)
          else Carries(table.key[c], p) && forall t :: table.From(p, t, c) ==> (p, t) !in region
    }

    ghost predicate Kid(y: Node, u: EdgeType, c: Node) {
      if (y, u) in region then c == region[(y, u)]
      else if y in owner then u == Other && table.From(owner[y].0, owner[y].1, c)
      else table.ChildNow(deps, deps.Keys, y, u, c)
    }

    /** The edges, exactly. */
    ghost predicate Describes(kids: set<Kid>, parents: set<(Node, Node)>) {
      && (forall c, p :: (c, p) in parents <==> Parent(c, p))
      && (forall y, u, c :: (y, u, c) in kids <==> Kid(y, u, c))
    }

    /** Split are exactly the places with more than one true or more than one false child. */
    ghost predicate FullySplit() {
      forall x: Node, t: EdgeType :: x.BlockNode? && x.block in deps && t != Other ==>
        ((x, t) in region <==> table.Crowded(x, t))
    }

    function Split(x: Node, t: EdgeType): Form {
      Form(deps, table, region[(x, t) := Region(next)], owner[Region(next) := (x, t)], next + 1)
    }
  }

  lemma SplitStart(tb: Table, deps: DependenceMap, next: nat, kids: set<Kid>, parents: set<(Node, Node)>)
    requires ClosedMap(deps) && tb.Valid(deps, deps.Keys, next) && tb.Grouped(deps, deps.Keys, kids, parents)
    ensures Form(deps, tb, map[], map[], next).Valid() && Form(deps, tb, map[], map[], next).Describes(kids, parents)
  {
  }

  /** The t-children of a block not yet split are the regions that depend on it by t. */
  lemma UnsplitKids(m: Form, x: Node, t: EdgeType, c: Node)
    requires m.Valid() && x.BlockNode? && (x, t) !in m.region
    ensures m.Kid(x, t, c) <==> m.table.From(x, t, c)
  {
  }

  lemma FreshRegion(m: Form)
    requires m.Valid()
    ensures Region(m.next) !in m.owner && Region(m.next) !in m.table.key
    ensures forall k :: k in m.region ==> m.region[k] != Region(m.next)
    ensures forall y, u, c :: m.table.From(y, u, c) ==> !y.Region?
  {
  }

  lemma FreshAmong(m: Form, kids: set<Kid>, parents: set<(Node, Node)>, x: Node, t: EdgeType, T: set<Node>)
    requires m.Valid() && m.Describes(kids, parents) && x.BlockNode? && (x, t) !in m.region
    requires forall c :: c in T ==> (x, t, c) in kids
    ensures Region(m.next) !in T
  {
    FreshRegion(m);
    forall c | c in T ensures m.table.From(x, t, c) { UnsplitKids(m, x, t, c); }
  }

  lemma SplitTable(tb: Table, deps: DependenceMap, visited: set<Block>, next: nat)
    requires tb.Valid(deps, visited, next)
    ensures tb.Valid(deps, visited, next + 1)
  {
  }

  lemma SplitKeys(m: Form, x: Node, t: EdgeType)
    requires m.Valid() && x.BlockNode? && t != Other && (x, t) !in m.region && m.table.Crowded(x, t)
    ensures
      var n := m.Split(x, t);
      forall k :: k in n.region ==>
        k.0.BlockNode? && k.1 != Other && n.table.Crowded(k.0, k.1) && n.region[k] in n.owner
          && n.owner[n.region[k]] == k
  {
    var n := m.Split(x, t);
    FreshRegion(m);
    forall k | k in n.region
      ensures k.0.BlockNode? && k.1 != Other && n.table.Crowded(k.0, k.1) && n.region[k] in n.owner
      ensures n.owner[n.region[k]] == k
    {
      if k != (x, t) { assert k in m.region; }
    }
  }

  lemma SplitOwners(m: Form, x: Node, t: EdgeType)
    requires m.Valid() && (x, t) !in m.region
    ensures
      var n := m.Split(x, t);
      forall s :: s in n.owner ==>
        s.Region? && s.id < n.next && s !in n.table.key && n.owner[s] in n.region && n.region[n.owner[s]] == s
  {
    var n := m.Split(x, t);
    FreshRegion(m);
    forall s | s in n.owner
      ensures s.Region? && s.id < n.next && s !in n.table.key && n.owner[s] in n.region && n.region[n.owner[s]] == s
    {
      if s != Region(m.next) { assert s in m.owner; }
    }
  }

  lemma SplitValid(m: Form, x: Node, t: EdgeType)
    requires m.Valid() && x.BlockNode? && t != Other && (x, t) !in m.region && m.table.Crowded(x, t)
    ensures m.Split(x, t).Valid()
  {
    SplitTable(m.table, m.deps, m.deps.Keys, m.next);
    SplitKeys(m, x, t);
    SplitOwners(m, x, t);
  }

  lemma SplitParentOfRegion(m: Form, x: Node, t: EdgeType, c: Node, p: Node)
    requires x.BlockNode? && t != Other && (x, t) !in m.region && c.Region?
    requires Region(m.next) !in m.owner && Region(m.next) !in m.table.key
    requires forall k :: k in m.owner ==> k.Region? && k !in m.table.key
    requires forall y, u, d :: m.table.From(y, u, d) ==> !y.Region?
    ensures m.Split(x, t).Parent(c, p) <==>
      (m.Parent(c, p) && !(m.table.From(x, t, c) && p == x)) || (m.table.From(x, t, c) && p == Region(m.next)) ||
      (c == Region(m.next) && p == x)
  {
    var n := m.Split(x, t);
    assert forall u :: (p, u) in n.region <==> (p, u) in m.region || (p == x && u == t);
    if c in m.table.key && Carries(m.table.key[c], p) {
      var u :| (u, p) in m.table.key[c];
      assert m.table.From(p, u, c);
    }
  }

  lemma SplitParent(m: Form, x: Node, t: EdgeType, c: Node, p: Node)
    requires m.Valid() && x.BlockNode? && t != Other && (x, t) !in m.region
    ensures m.Split(x, t).Parent(c, p) <==>
      (m.Parent(c, p) && !(m.table.From(x, t, c) && p == x)) || (m.table.From(x, t, c) && p == Region(m.next)) ||
      (c == Region(m.next) && p == x)
  {
    FreshRegion(m);
    if c.Region? { SplitParentOfRegion(m, x, t, c, p); }
  }

  lemma NoKidsYet(m: Form, u: EdgeType, c: Node)
    requires m.Valid()
    ensures !m.Kid(Region(m.next), u, c)
  {
    FreshRegion(m);
  }

  lemma SplitKidOf(m: Form, x: Node, t: EdgeType, y: Node, u: EdgeType, c: Node)
    requires x.BlockNode? && (x, t) !in m.region && !m.Kid(Region(m.next), u, c) && (Region(m.next), u) !in m.region
    ensures m.Split(x, t).Kid(y, u, c) <==>
      (m.Kid(y, u, c) && !(y == x && u == t)) || (y == Region(m.next) && u == Other && m.table.From(x, t, c)) ||
      (y == x && u == t && c == Region(m.next))
  {
    var n := m.Split(x, t);
    assert (y, u) in n.region <==> (y, u) in m.region || (y == x && u == t);
    assert y in n.owner <==> y in m.owner || y == Region(m.next);
  }

  lemma SplitKid(m: Form, x: Node, t: EdgeType, y: Node, u: EdgeType, c: Node)
    requires m.Valid() && x.BlockNode? && (x, t) !in m.region
    ensures m.Split(x, t).Kid(y, u, c) <==>
      (m.Kid(y, u, c) && !(y == x && u == t)) || (y == Region(m.next) && u == Other && m.table.From(x, t, c)) ||
      (y == x && u == t && c == Region(m.next))
  {
    NoKidsYet(m, u, c);
    assert (Region(m.next), u) !in m.region;
    SplitKidOf(m, x, t, y, u, c);
  }

  lemma TwoMembers(T: set<Node>)
    requires |T| > 1
    ensures exists c, d :: c in T && d in T && c != d
  {
    var c :| c in T;
    assert T != {c} by { assert |{c}| == 1; }
    var d :| d in T && d != c;
  }

  /** The edges after `region` took the t-children T of x over. */
  ghost predicate TakenOver(kids: set<Kid>, parents: set<(Node, Node)>, x: Node, t: EdgeType, T: set<Node>,
                            region: Node,
                            kids': set<Kid>, parents': set<(Node, Node)>)
  {
    && (forall y, u, c :: (y, u, c) in kids' <==>
          ((y, u, c) in kids && !(y == x && u == t)) || (y == region && u == Other && c in T) ||
          (y == x && u == t && c == region))
    && (forall c, p :: (c, p) in parents' <==>
          ((c, p) in parents && !(c in T && p == x)) || (c in T && p == region) || (c == region && p == x))
  }

  /** One split: region s takes over the t-children T of block x. Nothing is lost and nothing invented. */
  lemma SplitStep(m: Form, kids: set<Kid>, parents: set<(Node, Node)>, x: Node, t: EdgeType, T: set<Node>,
                  kids': set<Kid>, parents': set<(Node, Node)>)
    requires m.Valid() && m.Describes(kids, parents)
    requires x.BlockNode? && t != Other && (x, t) !in m.region && |T| > 1
    requires forall c :: c in T <==> (x, t, c) in kids
    requires TakenOver(kids, parents, x, t, T, Region(m.next), kids', parents')
    ensures m.Split(x, t).Valid() && m.Split(x, t).Describes(kids', parents') && m.table.Crowded(x, t)
  {
    forall c ensures c in T <==> m.table.From(x, t, c) { UnsplitKids(m, x, t, c); }
    TwoMembers(T);
    var c, d :| c in T && d in T && c != d;
    assert m.table.Crowded(x, t);
    SplitValid(m, x, t);
    forall c, p ensures (c, p) in parents' <==> m.Split(x, t).Parent(c, p) {
      SplitParent(m, x, t, c, p);
    }
    forall y, u, c ensures (y, u, c) in kids' <==> m.Split(x, t).Kid(y, u, c) {
      SplitKid(m, x, t, y, u, c);
    }
  }

  /** A place not split has at most one t-child exactly when it is not crowded; a split one has exactly one. */
  lemma OneChildUnlessCrowded(m: Form, kids: set<Kid>, parents: set<(Node, Node)>, x: Node, t: EdgeType)
    requires m.Valid() && m.Describes(kids, parents) && x.BlockNode?
    ensures (forall c, d :: (x, t, c) in kids && (x, t, d) in kids ==> c == d) <==>
      ((x, t) in m.region || !m.table.Crowded(x, t))
  {
    forall c ensures (x, t, c) in kids <==> m.Kid(x, t, c) {}
    if (x, t) !in m.region {
      forall c ensures (x, t, c) in kids <==> m.table.From(x, t, c) { UnsplitKids(m, x, t, c); }
    }
  }

  lemma SplitEverywhere(m: Form, nodes: set<Node>)
    requires m.Valid() && forall b :: b in m.deps ==> BlockNode(b) in nodes
    requires forall x: Node, t: EdgeType :: x in nodes && x.BlockNode? && t != Other && m.table.Crowded(x, t) ==>
      (x, t) in m.region
    ensures m.FullySplit()
  {
  }

  /** A place is crowded exactly when two blocks with different dependence sets depend on it. */
  lemma CrowdedMeans(tb: Table, deps: DependenceMap, next: nat, x: Node, t: EdgeType)
    requires tb.Valid(deps, deps.Keys, next) && t != Other
    ensures tb.Crowded(x, t) <==>
      exists b, c :: b in deps && c in deps && deps[b] != deps[c] && (t, x) in deps[b] && (t, x) in deps[c]
  {
    if tb.Crowded(x, t) {
      var u, v :| u != v && tb.From(x, t, u) && tb.From(x, t, v);
      var b :| b in deps && deps[b] == tb.key[u];
      var c :| c in deps && deps[c] == tb.key[v];
      assert deps[b] != deps[c];
    }
    if b, c :| b in deps && c in deps && deps[b] != deps[c] && (t, x) in deps[b] && (t, x) in deps[c] {
      assert tb.From(x, t, tb.regionOf[deps[b]]) && tb.From(x, t, tb.regionOf[deps[c]]);
    }
  }

  lemma FewChildren<T>(s: set<T>)
    requires |s| <= 1
    ensures forall c, c' :: c in s && c' in s ==> c == c'
  {
    if s != {} {
      var x :| x in s;
      assert |s - {x}| == 0;
    }
  }

  lemma ManyMeansCrowded(m: Form, kids: set<Kid>, parents: set<(Node, Node)>, x: Node, t: EdgeType, T: set<Node>)
    requires m.Valid() && m.Describes(kids, parents) && x.BlockNode?
    requires forall c :: c in T <==> (x, t, c) in kids
    ensures |T| > 1 <==> (x, t) !in m.region && m.table.Crowded(x, t)
  {
    OneChildUnlessCrowded(m, kids, parents, x, t);
    if |T| > 1 { TwoMembers(T); } else { FewChildren(T); }
  }

  lemma HasChildBy(m: Form, kids: set<Kid>, parents: set<(Node, Node)>, x: Node, t: EdgeType)
    requires m.Valid() && m.Describes(kids, parents) && x.BlockNode? && t != Other
    ensures ChildrenBy(kids, x, t) != {} <==> exists b :: b in m.deps && (t, x) in m.deps[b]
  {
    if c :| c in ChildrenBy(kids, x, t) {
      assert m.Kid(x, t, c);
      var d :=
        if (x, t) in m.region then var u, v :| u != v && m.table.From(x, t, u) && m.table.From(x, t, v); u
        else c;
      if (x, t) !in m.region { UnsplitKids(m, x, t, c); }
      assert m.table.From(x, t, d);
      var b :| b in m.deps && m.deps[b] == m.table.key[d];
    }
    if b :| b in m.deps && (t, x) in m.deps[b] {
      var r := m.table.regionOf[m.deps[b]];
      assert m.table.From(x, t, r);
      assert m.Kid(x, t, if (x, t) in m.region then m.region[(x, t)] else r);
      assert (x, t, if (x, t) in m.region then m.region[(x, t)] else r) in kids;
    }
  }

  // ----- what the finished graph looks like

  /** A typed dependence is still there as a child edge, directly or through the region that took it over. */
  lemma DependenceKept(m: Form, kids: set<Kid>, parents: set<(Node, Node)>, b: Block, t: EdgeType, p: Node)
    requires m.Valid() && m.Describes(kids, parents) && b in m.deps && (t, p) in m.deps[b] && m.deps[b] != ROOT_ONLY
    ensures
      var r := m.table.regionOf[m.deps[b]];
      && (r, Other, BlockNode(b)) in kids
      && if (p, t) in m.region then (p, t, m.region[(p, t)]) in kids && (m.region[(p, t)], Other, r) in kids
         else (p, t, r) in kids
  {
    var r := m.table.regionOf[m.deps[b]];
    assert m.table.From(p, t, r);
    assert m.Kid(r, Other, BlockNode(b));
    if (p, t) in m.region {
      assert m.Kid(p, t, m.region[(p, t)]) && m.Kid(m.region[(p, t)], Other, r);
    } else {
      assert m.Kid(p, t, r);
    }
  }

  /** A block with a dependence beyond the root edge ends with exactly one parent, a region; any
      other block ends with none. */
  lemma OneRegionParent(m: Form, kids: set<Kid>, parents: set<(Node, Node)>, b: Block)
    requires m.Valid() && m.Describes(kids, parents) && b in m.deps
    ensures !Trivial(m.deps[b]) ==> exists r: Node :: r.Region? && forall p :: (BlockNode(b), p) in parents <==> p == r
    ensures Trivial(m.deps[b]) ==> forall p :: (BlockNode(b), p) !in parents
  {
    var n := BlockNode(b);
    forall p ensures (n, p) in parents <==> m.table.ParentNow(m.deps, m.deps.Keys, n, p) {
      assert (n, p) in parents <==> m.Parent(n, p);
    }
    if !Trivial(m.deps[b]) {
      var r := m.table.regionOf[m.deps[b]];
      assert r.Region? && forall p :: (n, p) in parents <==> p == r;
    }
  }

  /** Two such blocks hang under the same region exactly when their dependence sets are equal. */
  lemma SharedRegion(m: Form, kids: set<Kid>, parents: set<(Node, Node)>, b: Block, c: Block)
    requires m.Valid() && m.Describes(kids, parents)
    requires b in m.deps && c in m.deps && !Trivial(m.deps[b]) && !Trivial(m.deps[c])
    ensures (exists r :: (BlockNode(b), r) in parents && (BlockNode(c), r) in parents) <==> m.deps[b] == m.deps[c]
  {
    var rb, rc := m.table.regionOf[m.deps[b]], m.table.regionOf[m.deps[c]];
    forall p ensures (BlockNode(b), p) in parents <==> p == rb {
      assert (BlockNode(b), p) in parents <==> m.Parent(BlockNode(b), p);
    }
    forall p ensures (BlockNode(c), p) in parents <==> p == rc {
      assert (BlockNode(c), p) in parents <==> m.Parent(BlockNode(c), p);
    }
    assert m.table.key[rb] == m.deps[b] && m.table.key[rc] == m.deps[c];
    assert (BlockNode(b), rb) in parents;
  }

  /** Where parents and children part ways: a block with only the root edge stays a child of the root
      but has no parent. */
  lemma RootOnlyLosesParent(m: Form, kids: set<Kid>, parents: set<(Node, Node)>, b: Block)
    requires m.Valid() && m.Describes(kids, parents) && b in m.deps && m.deps[b] == ROOT_ONLY
    ensures (Root, Other, BlockNode(b)) in kids && forall p :: (BlockNode(b), p) !in parents
  {
    assert m.Kid(Root, Other, BlockNode(b));
    forall p ensures (BlockNode(b), p) !in parents { assert !m.Parent(BlockNode(b), p); }
  }

  // ----- the rewritten graph means what the plain one meant

  /** u stands, directly or as a region, for a dependence on block x. */
  ghost predicate Denotes(m: Form, u: Node, x: Block) {
    match u
    case Root => false
    case BlockNode(b) => b in m.deps && Carries(m.deps[b], BlockNode(x))
    case Region(_) =>
      (u in m.table.key && Carries(m.table.key[u], BlockNode(x))) || (u in m.owner && m.owner[u].0 == BlockNode(x))
  }

  ghost predicate Relates(rel: set<(Block, Block)>, deps: DependenceMap) {
    forall y, x :: (y, x) in rel <==> y in deps && Carries(deps[y], BlockNode(x))
  }

  /** Stepping up never invents a dependence. */
  lemma StepDenotes(m: Form, u: Node, v: Node, x: Block)
    requires m.Valid() && m.Parent(u, v)
    ensures v == BlockNode(x) ==> Denotes(m, u, x)
    ensures !v.BlockNode? && Denotes(m, v, x) ==> Denotes(m, u, x)
  {
  }

  lemma {:induction false} ChainDenotes(m: Form, kids: set<Kid>, parents: set<(Node, Node)>, rel: set<(Block, Block)>,
                                        p: seq<Node>, u: Node, a: Block) returns (x: Block)
    requires m.Valid() && m.Describes(kids, parents) && Relates(rel, m.deps)
    requires Via(parents, p, u, BlockNode(a))
    ensures Denotes(m, u, x) && ChainOrEqual(rel, x, a)
    decreases |p|
  {
    var v := p[1];
    assert (p[0], p[1]) in parents && m.Parent(u, v);
    if |p| == 2 {
      StepDenotes(m, u, v, a);
      x := a;
    } else {
      LinkedTail(parents, p);
      x := ChainDenotes(m, kids, parents, rel, p[1..], v, a);
      if v.BlockNode? {
        StepDenotes(m, u, v, v.block);
        ChainCons(rel, v.block, x, a);
        x := v.block;
      } else {
        StepDenotes(m, u, v, x);
      }
    }
  }

  /** A dependence is at most three steps up: region, perhaps a split region, then the block. */
  lemma DependenceChain(m: Form, kids: set<Kid>, parents: set<(Node, Node)>, b: Block, p: Node)
    requires m.Valid() && m.Describes(kids, parents)
    requires b in m.deps && Carries(m.deps[b], p) && !Trivial(m.deps[b])
    ensures Chain(parents, BlockNode(b), p)
  {
    var r := m.table.regionOf[m.deps[b]];
    assert m.Parent(BlockNode(b), r);
    assert r in m.table.key && m.table.key[r] == m.deps[b];
    if t :| m.table.From(p, t, r) && (p, t) in m.region {
      var s := m.region[(p, t)];
      assert m.Parent(s, p) && m.Parent(r, s);
      ChainStep(parents, s, p);
      ChainCons(parents, r, s, p);
    } else {
      assert m.Parent(r, p);
      ChainStep(parents, r, p);
    }
    ChainCons(parents, BlockNode(b), r, p);
  }

  lemma {:induction false} RelationChain(m: Form, kids: set<Kid>, parents: set<(Node, Node)>, rel: set<(Block, Block)>,
                                         p: seq<Block>, b: Block, a: Block)
    requires m.Valid() && m.Describes(kids, parents) && Relates(rel, m.deps)
    requires Via(rel, p, b, a)
    ensures Chain(parents, BlockNode(b), BlockNode(a))
    decreases |p|
  {
    assert (p[0], p[1]) in rel;
    DependenceChain(m, kids, parents, b, BlockNode(p[1]));
    if |p| > 2 {
      LinkedTail(rel, p);
      RelationChain(m, kids, parents, rel, p[1..], p[1], a);
      ChainTransitive(parents, BlockNode(b), BlockNode(p[1]), BlockNode(a));
    }
  }

  /** The rewrite preserves every block-to-block chain, in both directions. */
  lemma RegionsPreserveChains(m: Form, kids: set<Kid>, parents: set<(Node, Node)>, rel: set<(Block, Block)>, b: Block,
                              a: Block)
    requires m.Valid() && m.Describes(kids, parents) && Relates(rel, m.deps)
    ensures Chain(parents, BlockNode(b), BlockNode(a)) <==> Chain(rel, b, a)
  {
    if Chain(parents, BlockNode(b), BlockNode(a)) {
      var p :| Via(parents, p, BlockNode(b), BlockNode(a));
      var x := ChainDenotes(m, kids, parents, rel, p, BlockNode(b), a);
      ChainCons(rel, b, x, a);
    }
    if Chain(rel, b, a) {
      var p :| Via(rel, p, b, a);
      RelationChain(m, kids, parents, rel, p, b, a);
    }
  }
}
