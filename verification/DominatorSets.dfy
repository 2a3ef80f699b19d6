/** The worklist that computes dominator sets, and when its answer is the set of path dominators. */
module DominatorSets {
  import opened ControlFlow

  type Doms = map<Block, set<Block>>

  /** LLVM's predecessor lists: any order, any multiplicity. */
  type Preds = map<Block, seq<Block>>

  ghost predicate PredsOf(f: Function, preds: Preds) {
    && (forall b :: b in preds <==> b in f.blocks)
    && (forall a, b :: b in preds ==> (a in preds[b] <==> f.Edge(a, b)))
  }

  ghost function All(f: Function): set<Block> {
    set b | b in f.blocks
  }

  ghost predicate Orphan(preds: Preds, entry: Block, b: Block) {
    b in preds && b != entry && preds[b] == []
  }

  /** z's own block plus whatever all predecessors agree on. */
  ghost function Meet(doms: Doms, ps: seq<Block>, z: Block): set<Block>
    requires ps != [] && forall p :: p in ps ==> p in doms
  {
    var first := ps[0];
    assert first in ps;
    {z} + set d | d in doms[first] && forall p :: p in ps ==> d in doms[p]
  }

  /** The sets are complete over the blocks; the entry and the orphans keep themselves only. */
  ghost predicate Shape(all: set<Block>, preds: Preds, entry: Block, doms: Doms) {
    && doms.Keys == preds.Keys == all && entry in all
    && (forall b :: b in all ==> doms[b] <= all)
    && (forall a, b :: b in preds && a in preds[b] ==> a in all)
    && doms[entry] == {entry}
    && (forall b :: Orphan(preds, entry, b) ==> doms[b] == {b})
  }

  /** Queued blocks were touched, touched blocks have predecessors, the entry's successors are touched. */
  ghost predicate Queued(all: set<Block>, preds: Preds, entry: Block, worklist: seq<Block>, touched: set<Block>)
    requires preds.Keys == all && entry in all
  {
    && (forall z :: z in worklist ==> z in touched)
    && (forall z :: z in touched ==> z in all && preds[z] != [])
    && (entry in touched ==> entry in preds[entry])
    && (forall z :: z in all && entry in preds[z] ==> z in touched)
  }

  /** Only touched blocks have left their initial sets, and so have only predecessors of touched ones. */
  ghost predicate Spread(all: set<Block>, preds: Preds, entry: Block, doms: Doms, touched: set<Block>)
    requires Shape(all, preds, entry, doms)
  {
    && (forall z :: z in all && z != entry && preds[z] != [] && z !in touched ==> doms[z] == all)
    && (forall z, b ::
      z in all && z != entry && b in preds[z] && b != entry && preds[b] != [] && doms[b] != all ==> z in touched)
  }

  ghost predicate Bounded(all: set<Block>, preds: Preds, entry: Block, doms: Doms)
    requires Shape(all, preds, entry, doms)
  {
    forall z :: z in all && z != entry && preds[z] != [] ==> Meet(doms, preds[z], z) <= doms[z]
  }

  /** Touched blocks that are not queued satisfy their equation. */
  ghost predicate Solved(all: set<Block>, preds: Preds, entry: Block, doms: Doms, worklist: seq<Block>,
                         touched: set<Block>)
    requires Shape(all, preds, entry, doms) && Queued(all, preds, entry, worklist, touched)
  {
    forall z :: z in touched && z != entry && z !in worklist ==> doms[z] == Meet(doms, preds[z], z)
  }

  /** What holds around every round: `touched` is every block ever queued. */
  ghost predicate Working(all: set<Block>, preds: Preds, entry: Block, doms: Doms, worklist: seq<Block>,
                          touched: set<Block>)
  {
    && Shape(all, preds, entry, doms) && Queued(all, preds, entry, worklist, touched)
    && Spread(all, preds, entry, doms, touched) && Bounded(all, preds, entry, doms)
    && Solved(all, preds, entry, doms, worklist, touched)
  }

  // ----- termination

  ghost function Total(doms: Doms, blocks: seq<Block>): nat
    requires forall b :: b in blocks ==> b in doms
  {
    if blocks == [] then 0
    else
      var first := blocks[0];
      assert first in blocks;
      |doms[first]| + Total(doms, blocks[1..])
  }

  lemma ProperSubsetSize(s: set<Block>, t: set<Block>)
    requires s <= t
    ensures |s| <= |t|
    ensures s != t ==> |s| < |t|
  {
    assert t == s + (t - s);
  }

  lemma {:induction false} TotalDrops(doms: Doms, doms': Doms, blocks: seq<Block>, z: Block)
    requires forall b :: b in blocks ==> b in doms && b in doms'
    requires forall b :: b in blocks ==> doms'[b] <= doms[b]
    ensures Total(doms', blocks) <= Total(doms, blocks)
    ensures z in blocks && doms'[z] != doms[z] ==> Total(doms', blocks) < Total(doms, blocks)
  {
    if blocks != [] {
      var first := blocks[0];
      assert first in blocks;
      ProperSubsetSize(doms'[first], doms[first]);
      TotalDrops(doms, doms', blocks[1..], z);
    }
  }

  // ----- one round

  lemma MeetMonotone(doms: Doms, doms': Doms, ps: seq<Block>, z: Block)
    requires ps != [] && (forall p :: p in ps ==> p in doms && p in doms' && doms'[p] <= doms[p])
    ensures Meet(doms', ps, z) <= Meet(doms, ps, z)
  {
  }

  lemma MeetInside(doms: Doms, ps: seq<Block>, z: Block, p: Block)
    requires p in ps && (forall q :: q in ps ==> q in doms)
    ensures Meet(doms, ps, z) <= {z} + doms[p]
  {
  }

  lemma MeetUnchanged(doms: Doms, doms': Doms, ps: seq<Block>, z: Block)
    requires ps != [] && (forall p :: p in ps ==> p in doms && p in doms' && doms'[p] == doms[p])
    ensures Meet(doms', ps, z) == Meet(doms, ps, z)
  {
  }

  /** A round shrinks the set of its block, if it changes it at all. */
  lemma RoundShrinks(all: set<Block>, preds: Preds, entry: Block, doms: Doms, worklist: seq<Block>, touched: set<Block>)
    requires Working(all, preds, entry, doms, worklist, touched) && worklist != []
    ensures
      var z := worklist[0];
      preds[z] != [] && Meet(doms, preds[z], z) <= doms[z] && (z == entry ==> Meet(doms, preds[z], z) == doms[z])
  {
  }

  /** Nothing changed: the block leaves the worklist with its equation satisfied. */
  lemma RoundIdle(all: set<Block>, preds: Preds, entry: Block, doms: Doms, worklist: seq<Block>, touched: set<Block>)
    requires Working(all, preds, entry, doms, worklist, touched) && worklist != []
    requires var z := worklist[0]; preds[z] != [] && doms[z] == Meet(doms, preds[z], z)
    ensures Working(all, preds, entry, doms, worklist[1..], touched)
  {
    var z := worklist[0];
    assert worklist == [z] + worklist[1..];
  }

  lemma UpdateShape(all: set<Block>, preds: Preds, entry: Block, doms: Doms, z: Block, m: set<Block>)
    requires Shape(all, preds, entry, doms) && z in all && z != entry && preds[z] != [] && m <= all
    ensures Shape(all, preds, entry, doms[z := m])
  {
  }

  lemma UpdateBounded(all: set<Block>, preds: Preds, entry: Block, doms: Doms, z: Block)
    requires Shape(all, preds, entry, doms) && Bounded(all, preds, entry, doms)
    requires z in all && z != entry && preds[z] != []
    ensures
      var doms' := doms[z := Meet(doms, preds[z], z)];
      Shape(all, preds, entry, doms') && Bounded(all, preds, entry, doms')
  {
    var doms' := doms[z := Meet(doms, preds[z], z)];
    UpdateShape(all, preds, entry, doms, z, Meet(doms, preds[z], z));
    forall b | b in all && b != entry && preds[b] != [] ensures Meet(doms', preds[b], b) <= doms'[b] {
      MeetMonotone(doms, doms', preds[b], b);
    }
  }

  lemma UpdateQueued(all: set<Block>, preds: Preds, entry: Block, worklist: seq<Block>, touched: set<Block>, z: Block,
                     worklist': seq<Block>, touched': set<Block>)
    requires preds.Keys == all && entry in all && Queued(all, preds, entry, worklist, touched)
    requires forall x :: x in worklist' ==> x in worklist || (x in all && z in preds[x] && x != entry)
    requires touched' == touched + set x | x in all && z in preds[x] && x != entry
    ensures Queued(all, preds, entry, worklist', touched')
  {
  }

  lemma UpdateSpread(all: set<Block>, preds: Preds, entry: Block, doms: Doms, touched: set<Block>, z: Block,
                     m: set<Block>, touched': set<Block>)
    requires Shape(all, preds, entry, doms) && Spread(all, preds, entry, doms, touched) && z in touched && z in all
    requires touched' == touched + set x | x in all && z in preds[x] && x != entry
    requires Shape(all, preds, entry, doms[z := m])
    ensures Spread(all, preds, entry, doms[z := m], touched')
  {
  }

  /** Blocks that stay out of the new worklist have no changed predecessor. */
  lemma UpdateSolved(all: set<Block>, preds: Preds, entry: Block, doms: Doms, worklist: seq<Block>, touched: set<Block>,
                     worklist': seq<Block>, touched': set<Block>)
    requires Shape(all, preds, entry, doms) && Queued(all, preds, entry, worklist, touched) && worklist != []
    requires Solved(all, preds, entry, doms, worklist, touched)
    requires var z := worklist[0]; z in all && z != entry && preds[z] != []
    requires forall x :: x in worklist' <==> x in worklist[1..] || (x in all && worklist[0] in preds[x] && x != entry)
    requires touched' == touched + set x | x in all && worklist[0] in preds[x] && x != entry
    requires Shape(all, preds, entry, doms[worklist[0] := Meet(doms, preds[worklist[0]], worklist[0])])
    requires Queued(all, preds, entry, worklist', touched')
    ensures Solved(all, preds, entry, doms[worklist[0] := Meet(doms, preds[worklist[0]], worklist[0])], worklist',
      touched')
  {
    var z := worklist[0];
    assert worklist == [z] + worklist[1..];
    var doms' := doms[z := Meet(doms, preds[z], z)];
    forall b | b in touched' && b != entry && b !in worklist' ensures doms'[b] == Meet(doms', preds[b], b) {
      MeetUnchanged(doms, doms', preds[b], b);
    }
  }

  /** The set shrank: every successor other than the entry is queued again. */
  lemma RoundUpdate(all: set<Block>, preds: Preds, entry: Block, doms: Doms, worklist: seq<Block>, touched: set<Block>,
                    worklist': seq<Block>, touched': set<Block>)
    requires Working(all, preds, entry, doms, worklist, touched) && worklist != []
    requires worklist[0] != entry && preds[worklist[0]] != []
    requires forall x :: x in worklist' <==> x in worklist[1..] || (x in all && worklist[0] in preds[x] && x != entry)
    requires touched' == touched + (set x | x in all && worklist[0] in preds[x] && x != entry)
    ensures Working(all, preds, entry, doms[worklist[0] := Meet(doms, preds[worklist[0]], worklist[0])], worklist',
      touched')
  {
    var z := worklist[0];
    assert worklist == [z] + worklist[1..] && z in worklist && z in touched && z in all;
    UpdateBounded(all, preds, entry, doms, z);
    UpdateQueued(all, preds, entry, worklist, touched, z, worklist', touched');
    UpdateSpread(all, preds, entry, doms, touched, z, Meet(doms, preds[z], z), touched');
    UpdateSolved(all, preds, entry, doms, worklist, touched, worklist', touched');
  }

  lemma RoundStart(f: Function, preds: Preds, doms: Doms, worklist: seq<Block>, touched: set<Block>)
    requires f.WellFormed() && PredsOf(f, preds)
    requires doms.Keys == All(f)
    requires forall b :: b in f.blocks ==>
      doms[b] == if b == f.Entry() || preds[b] == [] then {b} else All(f)
    requires forall x :: x in worklist <==> f.Edge(f.Entry(), x)
    requires touched == set x | x in worklist
    ensures Working(All(f), preds, f.Entry(), doms, worklist, touched)
  {
    var entry := f.Entry();
    assert entry in f.blocks;
    assert forall b :: b in preds.Keys <==> b in All(f);
    forall z | z in touched ensures z in All(f) && entry in preds[z] { assert f.Edge(entry, z); }
    forall z | z in All(f) && entry in preds[z] ensures z in touched { assert f.Edge(entry, z); }
    forall z | z in All(f) && preds[z] != [] ensures Meet(doms, preds[z], z) <= All(f) {
      var first := preds[z][0];
      assert first in preds[z] && f.Edge(first, z);
      MeetInside(doms, preds[z], z, first);
    }
  }

  // ----- soundness: along a simple path the sets never contain more than the path

  lemma SimplePath(f: Function, p: seq<Block>) returns (q: seq<Block>)
    requires f.Path(p)
    ensures f.Path(q) && q[0] == p[0] && q[|q| - 1] == p[|p| - 1]
    ensures forall b :: b in q ==> b in p
    ensures forall i, j :: 0 <= i < j < |q| ==> q[i] != q[j]
    decreases |p|
  {
    if |p| == 1 {
      q := p;
    } else {
      var last := p[|p| - 1];
      PathPrefix(f, p, |p| - 1);
      var s := SimplePath(f, p[..|p| - 1]);
      assert forall b :: b in p[..|p| - 1] ==> b in p;
      if i :| 0 <= i < |s| && s[i] == last {
        PathPrefix(f, s, i + 1);
        q := s[..i + 1];
      } else {
        assert f.Edge(p[|p| - 2], last);
        PathSnoc(f, s, last);
        q := s + [last];
      }
    }
  }

  /** What an empty worklist leaves behind. */
  ghost predicate Settled(all: set<Block>, preds: Preds, entry: Block, doms: Doms, touched: set<Block>) {
    && Shape(all, preds, entry, doms)
    && (forall z :: z in all && entry in preds[z] ==> z in touched)
    && (forall z, a :: z in touched && z in all && z != entry && a in preds[z] ==> doms[z] <= {z} + doms[a])
    && (forall z, b ::
      z in all && z != entry && b in preds[z] && b != entry && preds[b] != [] && doms[b] != all ==> z in touched)
  }

  lemma WorkingSettles(all: set<Block>, preds: Preds, entry: Block, doms: Doms, touched: set<Block>)
    requires Working(all, preds, entry, doms, [], touched)
    ensures Settled(all, preds, entry, doms, touched)
  {
  }

  ghost predicate EntryPath(all: set<Block>, preds: Preds, entry: Block, q: seq<Block>) {
    && |q| > 0 && q[0] == entry
    && (forall i :: 0 <= i < |q| ==> q[i] in all)
    && (forall i :: 0 < i < |q| ==> q[i] in preds && q[i - 1] in preds[q[i]])
    && (forall i, j :: 0 <= i < j < |q| ==> q[i] != q[j])
  }

  /** With an empty worklist, every block on a simple entry path was touched and kept only path blocks. */
  lemma {:induction false} AlongPath(all: set<Block>, preds: Preds, entry: Block, doms: Doms, touched: set<Block>,
                                     q: seq<Block>, i: nat)
    requires Settled(all, preds, entry, doms, touched) && EntryPath(all, preds, entry, q) && i < |q|
    ensures forall d :: d in doms[q[i]] ==> d in q[..i + 1]
    ensures i > 0 ==> q[i] in touched
  {
    if i > 0 {
      AlongPath(all, preds, entry, doms, touched, q, i - 1);
      var a, z := q[i - 1], q[i];
      assert a in preds[z] && z != q[0];
      if i > 1 {
        assert z !in q[..i];
        assert q[i - 2] in preds[a] && a != q[0];
        assert doms[a] != all;
      }
      assert q[..i + 1] == q[..i] + [z];
      assert doms[z] <= {z} + doms[a];
    }
  }

  lemma IsEntryPath(f: Function, preds: Preds, q: seq<Block>)
    requires f.WellFormed() && PredsOf(f, preds) && f.Path(q) && q[0] == f.Entry()
    requires forall i, j :: 0 <= i < j < |q| ==> q[i] != q[j]
    ensures EntryPath(All(f), preds, f.Entry(), q)
  {
    forall i | 0 <= i < |q| ensures q[i] in All(f) { PathInBlocks(f, q, i); }
    forall i | 0 < i < |q| ensures q[i] in preds && q[i - 1] in preds[q[i]] { assert f.Edge(q[i - 1], q[i]); }
  }

  lemma OnlyDominators(f: Function, preds: Preds, doms: Doms, touched: set<Block>, z: Block, d: Block)
    requires f.WellFormed() && PredsOf(f, preds) && Settled(All(f), preds, f.Entry(), doms, touched)
    requires z in f.blocks && d in doms[z]
    ensures f.Dominates(d, z)
  {
    forall p | f.PathBetween(p, f.Entry(), z) ensures d in p {
      var q := SimplePath(f, p);
      IsEntryPath(f, preds, q);
      AlongPath(All(f), preds, f.Entry(), doms, touched, q, |q| - 1);
      assert q[..|q|] == q;
    }
  }

  // ----- completeness, and the one thing that breaks it

  /** A dominator of z other than z dominates every reachable predecessor of z. */
  lemma DominatorStep(f: Function, d: Block, a: Block, z: Block)
    requires f.WellFormed() && f.Dominates(d, z) && d != z && f.Edge(a, z)
    ensures f.Dominates(d, a)
  {
    forall p | f.PathBetween(p, f.Entry(), a) ensures d in p {
      PathSnoc(f, p, z);
      assert f.PathBetween(p + [z], f.Entry(), z);
    }
  }

  lemma EntryDominators(f: Function, d: Block)
    requires f.WellFormed() && f.Dominates(d, f.Entry())
    ensures d == f.Entry()
  {
    assert f.PathBetween([f.Entry()], f.Entry(), f.Entry());
  }

  /** The blocks whose sets must stay complete, closed under what a round reads. */
  ghost predicate Complete(f: Function, doms: Doms)
    requires f.WellFormed()
  {
    forall z, d :: f.Reachable(z) && f.Dominates(d, z) ==> z in doms && d in doms[z]
  }

  /** No block without predecessors, other than the entry, leads directly into a reachable block. */
  ghost predicate NoOrphanInto(f: Function, preds: Preds)
    requires f.WellFormed()
  {
    forall u, z :: Orphan(preds, f.Entry(), u) && f.Edge(u, z) && z != f.Entry() ==> !f.Reachable(z)
  }

  /** A round keeps every set complete, given that orphans stay out of the way. */
  lemma RoundComplete(f: Function, preds: Preds, doms: Doms, z: Block)
    requires f.WellFormed() && PredsOf(f, preds) && NoOrphanInto(f, preds) && Complete(f, doms)
    requires doms.Keys == All(f) && z in f.blocks && preds[z] != [] && z != f.Entry()
    requires forall b :: b in f.blocks && preds[b] != [] && b != f.Entry() && !f.Reachable(b) ==> doms[b] == All(f)
    requires forall p :: p in preds[z] ==> p in doms
    ensures Complete(f, doms[z := Meet(doms, preds[z], z)])
  {
    var m := Meet(doms, preds[z], z);
    forall d | f.Reachable(z) && f.Dominates(d, z) ensures d in m {
      forall p | p in preds[z] && d != z ensures d in doms[p] {
        assert f.Edge(p, z);
        if f.Reachable(p) {
          DominatorStep(f, d, p, z);
        } else {
          ReachableEntry(f);
          DominatorInBlocks(f, d, z);
          assert !Orphan(preds, f.Entry(), p);
        }
      }
      var first := preds[z][0];
      assert first in preds[z];
    }
  }

  lemma DominatorInBlocks(f: Function, d: Block, z: Block)
    requires f.WellFormed() && f.Reachable(z) && f.Dominates(d, z)
    ensures d in f.blocks
  {
    var p :| f.PathBetween(p, f.Entry(), z);
    var i :| 0 <= i < |p| && p[i] == d;
    PathInBlocks(f, p, i);
  }

  lemma StartComplete(f: Function, preds: Preds, doms: Doms)
    requires f.WellFormed() && PredsOf(f, preds)
    requires doms.Keys == All(f)
    requires forall b :: b in f.blocks ==>
      doms[b] == if b == f.Entry() || preds[b] == [] then {b} else All(f)
    ensures Complete(f, doms)
  {
    forall z, d | f.Reachable(z) && f.Dominates(d, z) ensures z in doms && d in doms[z] {
      DominatorInBlocks(f, d, z);
      if z == f.Entry() {
        EntryDominators(f, d);
      } else {
        var p :| f.PathBetween(p, f.Entry(), z);
        assert f.Edge(p[|p| - 2], z);
        PathInBlocks(f, p, |p| - 1);
        assert p[|p| - 2] in preds[z];
      }
    }
  }

  /** An orphan in front of a reachable block costs that block the entry. */
  lemma OrphanLosesEntry(f: Function, preds: Preds, doms: Doms, touched: set<Block>, u: Block, z: Block)
    requires f.WellFormed() && PredsOf(f, preds) && Settled(All(f), preds, f.Entry(), doms, touched)
    requires Orphan(preds, f.Entry(), u) && f.Edge(u, z) && z != f.Entry() && f.Reachable(z)
    ensures z in doms && f.Dominates(f.Entry(), z) && f.Entry() !in doms[z]
  {
    var p :| f.PathBetween(p, f.Entry(), z);
    var q := SimplePath(f, p);
    IsEntryPath(f, preds, q);
    AlongPath(All(f), preds, f.Entry(), doms, touched, q, |q| - 1);
    forall r | f.PathBetween(r, f.Entry(), z) ensures f.Entry() in r { assert r[0] in r; }
    assert doms[z] <= {z} + doms[u];
  }

  /** Complete sets if and only if no orphan leads into a reachable block. */
  lemma CompleteNeedsNoOrphan(f: Function, preds: Preds, doms: Doms, touched: set<Block>)
    requires f.WellFormed() && PredsOf(f, preds) && Settled(All(f), preds, f.Entry(), doms, touched)
    requires Complete(f, doms)
    ensures NoOrphanInto(f, preds)
  {
    forall u, z | Orphan(preds, f.Entry(), u) && f.Edge(u, z) && z != f.Entry() && f.Reachable(z) ensures false {
      OrphanLosesEntry(f, preds, doms, touched, u, z);
    }
  }

  /** What the loop keeps beyond `Working`: only reachable blocks are touched, so unreachable ones keep
      their initial sets, and without orphans in the way every set stays complete. */
  ghost predicate Sound(f: Function, preds: Preds, doms: Doms, touched: set<Block>)
    requires f.WellFormed()
  {
    && (forall x :: x in touched ==> f.Reachable(x))
    && (NoOrphanInto(f, preds) ==> Complete(f, doms))
  }

  lemma RoundSound(f: Function, preds: Preds, doms: Doms, worklist: seq<Block>, touched: set<Block>,
                   touched': set<Block>, z: Block)
    requires f.WellFormed() && PredsOf(f, preds)
    requires Working(All(f), preds, f.Entry(), doms, worklist, touched) && Sound(f, preds, doms, touched)
    requires z in touched && z != f.Entry() && preds[z] != []
    requires touched' == touched + (set x | x in All(f) && z in preds[x] && x != f.Entry())
    ensures Sound(f, preds, doms[z := Meet(doms, preds[z], z)], touched')
  {
    forall x | x in touched' ensures f.Reachable(x) {
      if x !in touched { ReachableStep(f, z, x); }
    }
    if NoOrphanInto(f, preds) { RoundComplete(f, preds, doms, z); }
  }

  lemma UpdateReads(f: Function, preds: Preds, doms: Doms, worklist: seq<Block>, touched: set<Block>)
    requires f.WellFormed() && PredsOf(f, preds) && worklist != []
    requires Working(All(f), preds, f.Entry(), doms, worklist, touched)
    ensures worklist[0] in f.blocks && worklist[0] in doms && preds.Keys == doms.Keys == All(f)
  {
    var z := worklist[0];
    assert z in worklist && z in touched;
  }

  /** The whole effect of storing a smaller set. */
  lemma UpdateAll(f: Function, preds: Preds, doms: Doms, worklist: seq<Block>, touched: set<Block>,
                  worklist': seq<Block>, touched': set<Block>, smaller: set<Block>)
    requires f.WellFormed() && PredsOf(f, preds) && worklist != []
    requires Working(All(f), preds, f.Entry(), doms, worklist, touched) && Sound(f, preds, doms, touched)
    requires worklist[0] in touched && worklist[0] != f.Entry() && preds[worklist[0]] != []
    requires smaller == Meet(doms, preds[worklist[0]], worklist[0]) && smaller < doms[worklist[0]]
    requires touched' == touched + (set x | x in All(f) && worklist[0] in preds[x] && x != f.Entry())
    requires forall x :: x in worklist' <==> x in worklist[1..] || (f.Edge(worklist[0], x) && x != f.Entry())
    ensures Working(All(f), preds, f.Entry(), doms[worklist[0] := smaller], worklist', touched')
    ensures Sound(f, preds, doms[worklist[0] := smaller], touched')
    ensures Total(doms[worklist[0] := smaller], f.blocks) < Total(doms, f.blocks)
  {
    var z := worklist[0];
    RoundSound(f, preds, doms, worklist, touched, touched', z);
    assert forall x :: f.Edge(z, x) <==> x in All(f) && z in preds[x];
    RoundUpdate(All(f), preds, f.Entry(), doms, worklist, touched, worklist', touched');
    TotalDrops(doms, doms[z := smaller], f.blocks, z);
  }

  // ----- the method

  /** Every set holds only path dominators; the sets of reachable blocks hold all of them if and only if
      no predecessor-less block other than the entry leads into a reachable block. */
  ghost predicate Computed(f: Function, preds: Preds, doms: Doms)
    requires f.WellFormed()
  {
    && doms.Keys == All(f) && (forall z :: z in f.blocks ==> doms[z] <= All(f))
    && (forall z, d :: z in f.blocks && d in doms[z] ==> f.Dominates(d, z))
    && (Complete(f, doms) <==> NoOrphanInto(f, preds))
  }

  lemma Finish(f: Function, preds: Preds, doms: Doms, touched: set<Block>)
    requires f.WellFormed() && PredsOf(f, preds)
    requires Working(All(f), preds, f.Entry(), doms, [], touched) && Sound(f, preds, doms, touched)
    ensures Computed(f, preds, doms)
  {
    WorkingSettles(All(f), preds, f.Entry(), doms, touched);
    forall z, d | z in f.blocks && d in doms[z] ensures f.Dominates(d, z) {
      OnlyDominators(f, preds, doms, touched, z, d);
    }
    if Complete(f, doms) { CompleteNeedsNoOrphan(f, preds, doms, touched); }
  }

  class DominatorAnalysis {
    var dominators: Doms

    constructor ()
      ensures dominators == map[]
    {
      dominators := map[];
    }

    method Initialise(f: Function, preds: Preds)
      requires f.WellFormed() && PredsOf(f, preds)
      modifies this
      ensures dominators.Keys == All(f)
      ensures forall b :: b in f.blocks ==>
        dominators[b] == if b == f.Entry() || preds[b] == [] then {b} else All(f)
    {
      dominators := map[];
      var everything := set b | b in f.blocks;
      for i := 0 to |f.blocks|
        invariant forall b :: b in dominators <==> b in f.blocks[..i] && b != f.blocks[0]
        invariant forall b :: b in dominators ==> dominators[b] == if preds[b] == [] then {b} else everything
      {
        assert f.blocks[..i + 1] == f.blocks[..i] + [f.blocks[i]];
        var blk := f.blocks[i];
        if i != 0 {
          dominators := dominators[blk := if preds[blk] != [] then everything else {blk}];
        }
      }
      assert f.blocks[..|f.blocks|] == f.blocks;
      dominators := dominators[f.blocks[0] := {f.blocks[0]}];
      assert f.blocks[0] in f.blocks;
      assert forall b :: b in dominators.Keys <==> b in All(f);
    }

    /** The inner loops of a round: the intersection over all predecessors, plus the block itself. */
    method IntersectPredecessors(ps: seq<Block>, z: Block) returns (doms: set<Block>)
      requires ps != [] && forall p :: p in ps ==> p in dominators
      ensures doms == Meet(dominators, ps, z)
    {
      var first := ps[0];
      assert first in ps;
      doms := dominators[first];
      for i := 0 to |ps|
        invariant forall d :: d in doms <==> d in dominators[first] && forall p :: p in ps[..i] ==> d in dominators[p]
      {
        var p := ps[i];
        assert p in ps;
        assert ps[..i + 1] == ps[..i] + [p];
        doms := set d | d in dominators[p] && d in doms;
      }
      assert ps[..|ps|] == ps;
      assert forall d :: d in doms <==> d in dominators[first] && forall p :: p in ps ==> d in dominators[p];
      assert doms == set d | d in dominators[first] && forall p :: p in ps ==> d in dominators[p];
      doms := doms + {z};
    }

    method PushSuccessors(f: Function, z: Block, worklist: seq<Block>) returns (worklist': seq<Block>)
      requires f.WellFormed() && z in f.blocks
      ensures forall x :: x in worklist' <==> x in worklist || (f.Edge(z, x) && x != f.Entry())
    {
      worklist' := worklist;
      var ss := f.succ[z];
      for j := 0 to |ss|
        invariant forall x :: x in worklist' <==> x in worklist || (x in ss[..j] && x != f.Entry())
      {
        assert ss[..j + 1] == ss[..j] + [ss[j]];
        if ss[j] != f.blocks[0] && ss[j] !in worklist' {
          worklist' := worklist' + [ss[j]];
        }
      }
      assert ss[..|ss|] == ss;
    }

    /** Stores the smaller set of the first block and queues its successors. */
    method UpdateSet(f: Function, preds: Preds, worklist: seq<Block>, ghost touched: set<Block>, smaller: set<Block>)
      returns (worklist': seq<Block>, ghost touched': set<Block>)
      requires f.WellFormed() && PredsOf(f, preds) && worklist != []
      requires Working(All(f), preds, f.Entry(), dominators, worklist, touched) && Sound(f, preds, dominators, touched)
      requires worklist[0] in touched && worklist[0] != f.Entry() && preds[worklist[0]] != []
      requires smaller == Meet(dominators, preds[worklist[0]], worklist[0]) && smaller < dominators[worklist[0]]
      modifies this
      ensures Working(All(f), preds, f.Entry(), dominators, worklist', touched')
      ensures Sound(f, preds, dominators, touched')
      ensures Total(dominators, f.blocks) < Total(old(dominators), f.blocks)
    {
      hide Working, Sound, PredsOf, Meet;
      var z := worklist[0];
      UpdateReads(f, preds, dominators, worklist, touched);
      touched' := touched + (set x | x in All(f) && z in preds[x] && x != f.Entry());
      worklist' := PushSuccessors(f, z, worklist[1..]);
      UpdateAll(f, preds, dominators, worklist, touched, worklist', touched', smaller);
      dominators := dominators[z := smaller];
    }

    /** One round of the worklist. */
    method Round(f: Function, preds: Preds, worklist: seq<Block>, ghost touched: set<Block>)
      returns (worklist': seq<Block>, ghost touched': set<Block>)
      requires f.WellFormed() && PredsOf(f, preds) && worklist != []
      requires Working(All(f), preds, f.Entry(), dominators, worklist, touched) && Sound(f, preds, dominators, touched)
      modifies this
      ensures Working(All(f), preds, f.Entry(), dominators, worklist', touched')
      ensures Sound(f, preds, dominators, touched')
      ensures Total(dominators, f.blocks) < Total(old(dominators), f.blocks)
              || (dominators == old(dominators) && |worklist'| < |worklist|)
    {
      var entry := f.Entry();
      var z := worklist[0];
      worklist', touched' := worklist[1..], touched;
      assert z in worklist;
      RoundShrinks(All(f), preds, entry, dominators, worklist, touched);
      var intersects := IntersectPredecessors(preds[z], z);
      if dominators[z] != intersects {
        worklist', touched' := UpdateSet(f, preds, worklist, touched, intersects);
      } else {
        RoundIdle(All(f), preds, entry, dominators, worklist, touched);
      }
    }

    method Prepare(f: Function, preds: Preds) returns (worklist: seq<Block>, ghost touched: set<Block>)
      requires f.WellFormed() && PredsOf(f, preds)
      modifies this
      ensures Working(All(f), preds, f.Entry(), dominators, worklist, touched) && Sound(f, preds, dominators, touched)
    {
      Initialise(f, preds);
      StartComplete(f, preds, dominators);
      assert f.Entry() in f.blocks;
      worklist := f.succ[f.Entry()];
      touched := set x | x in worklist;
      RoundStart(f, preds, dominators, worklist, touched);
      ReachableEntry(f);
      forall x | x in touched ensures f.Reachable(x) { ReachableStep(f, f.Entry(), x); }
    }

    method ComputeDominators(f: Function, preds: Preds)
      requires f.WellFormed() && PredsOf(f, preds)
      modifies this
      ensures Computed(f, preds, dominators)
    {
      var worklist, touched := Prepare(f, preds);
      while worklist != []
        invariant Working(All(f), preds, f.Entry(), dominators, worklist, touched)
        invariant Sound(f, preds, dominators, touched)
        decreases Total(dominators, f.blocks), |worklist|
      {
        worklist, touched := Round(f, preds, worklist, touched);
      }
      Finish(f, preds, dominators, touched);
    }
  }
}
